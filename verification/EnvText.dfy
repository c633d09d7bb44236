/** The text of a .env file: reading and upserting one KEY=value line by scanning
    (get_env_value and set_env_value in scripts/configure_logic.py, _upsert_env_line in
    scripts/configure_services.py). */
module EnvText {
  import opened Collections
  import opened RegexTemplate

  /** Keys the program uses: not empty, without '=', line breaks or backslashes. */
  predicate GoodKey(key: string) {
    key != "" && '=' !in key && '\n' !in key && '\r' !in key && BACKSLASH !in key
  }

  predicate OneLine(s: string) {
    '\n' !in s && '\r' !in s
  }

  function Start(key: string): (r: string)
    ensures |r| == |key| + 1
  {
    key + "="
  }

  /** Where the first line of t ends. */
  function Eol(t: string): (n: nat)
    ensures n <= |t| && (n < |t| ==> t[n] == '\n')
  {
    if t == "" || t[0] == '\n' then 0 else 1 + Eol(t[1..])
  }

  /** No line break comes before the end of the first line. */
  lemma {:induction false} EolIsFirst(t: string)
    ensures '\n' !in t[..Eol(t)]
  {
    if t != "" && t[0] != '\n' {
      EolIsFirst(t[1..]);
      assert t[..Eol(t)] == t[..1] + t[1..][..Eol(t[1..])];
    }
  }

  /** The value on the first line that begins with KEY=. */
  function Lookup(t: string, key: string): Option<string>
    decreases |t|
  {
    if Start(key) <= t then Some(t[|key| + 1..][..Eol(t[|key| + 1..])])
    else if Eol(t) == |t| then None
    else Lookup(t[Eol(t) + 1..], key)
  }

  /** The value read for a key: empty when there is no such line. */
  function GetValue(t: string, key: string): string {
    match Lookup(t, key) case Some(v) => v case None => ""
  }

  /** The first line that begins with KEY=, as the pattern matches it. */
  function MatchedLine(t: string, key: string): (m: string)
    requires Lookup(t, key).Some?
    ensures Start(key) <= m
  {
    Start(key) + Lookup(t, key).value
  }

  /** t with the first line that begins with KEY= replaced. */
  function Replace(t: string, key: string, line: string): string
    requires Lookup(t, key).Some?
    decreases |t|
  {
    if Start(key) <= t then line + t[|key| + 1 + Eol(t[|key| + 1..])..]
    else t[..Eol(t) + 1] + Replace(t[Eol(t) + 1..], key, line)
  }

  function Terminate(t: string): string {
    if t != "" && t[|t| - 1] != '\n' then t + "\n" else t
  }

  function Append(t: string, line: string): string {
    Terminate(t) + (line + "\n")
  }

  /** Replaces the first line of the key, with KEY=value expanded as a template, or appends
      the line. None when the template is rejected. */
  function Upsert(t: string, key: string, value: string): Option<string> {
    if Lookup(t, key).Some? then
      match Expand(Start(key) + value, MatchedLine(t, key))
      case Some(line) => Some(Replace(t, key, line))
      case None => None
    else Some(Append(t, Start(key) + value))
  }

  // ---------------------------------------------------------------------------
  // The pattern ^KEY=(.*)$ in multi-line mode, read by position.

  ghost predicate MatchAt(t: string, key: string, p: nat) {
    && p <= |t| && (p == 0 || t[p - 1] == '\n')
    && Start(key) <= t[p..]
  }

  ghost predicate FirstMatchAt(t: string, key: string, p: nat) {
    MatchAt(t, key, p) && forall q: nat :: q < p ==> !MatchAt(t, key, q)
  }

  ghost function RestOfLine(t: string, from: nat): string {
    if from <= |t| then t[from..][..Eol(t[from..])] else ""
  }

  lemma {:induction false} NoMatchInside(t: string, key: string, p: nat)
    requires 0 < p <= Eol(t)
    ensures !MatchAt(t, key, p)
  {
    EolIsFirst(t);
    assert t[p - 1] in t[..Eol(t)];
  }

  /** Beyond a line break matches are those of the rest of the text. */
  lemma {:induction false} MatchShift(t: string, key: string, n: nat, p: nat)
    requires 0 < n <= |t| && t[n - 1] == '\n'
    ensures MatchAt(t, key, n + p) <==> MatchAt(t[n..], key, p)
  {
    if n + p <= |t| {
      DropDrop(t, n, p);
      assert p > 0 ==> t[n..][p - 1] == t[n + p - 1];
    }
  }

  ghost predicate FoundAt(t: string, key: string, value: string, p: nat) {
    FirstMatchAt(t, key, p) && value == RestOfLine(t, p + |key| + 1)
  }

  /** Scanning finds what the pattern finds: the earliest position at the start of a line
      where the text continues with KEY=, and the characters from there to the line's end. */
  lemma {:induction false} LookupIsFirstMatch(t: string, key: string)
    requires '\n' !in key
    ensures Lookup(t, key).None? ==> forall p: nat :: !MatchAt(t, key, p)
    ensures Lookup(t, key).Some? ==> exists p: nat :: FoundAt(t, key, Lookup(t, key).value, p)
    decreases |t|
  {
    NoMatchInFirstLine(t, key);
    if !(Start(key) <= t) && Eol(t) < |t| {
      LookupIsFirstMatch(t[Eol(t) + 1..], key);
      FirstMatchLater(t, key, Eol(t) + 1);
    }
  }

  lemma {:induction false} FirstMatchLater(t: string, key: string, n: nat)
    requires 0 < n <= |t| && t[n - 1] == '\n'
    requires forall p: nat :: p < n ==> !MatchAt(t, key, p)
    ensures (forall p: nat :: !MatchAt(t[n..], key, p)) ==> forall p: nat :: !MatchAt(t, key, p)
    ensures forall value, q: nat :: FoundAt(t[n..], key, value, q) ==> FoundAt(t, key, value, n + q)
  {
    if forall p: nat :: !MatchAt(t[n..], key, p) {
      NoMatchShift(t, key, n);
    }
    forall value, q: nat | FoundAt(t[n..], key, value, q) ensures FoundAt(t, key, value, n + q) {
      FirstMatchShift(t, key, n, q);
      RestOfLineShift(t, n, q + |key| + 1);
    }
  }

  lemma {:induction false} NoMatchInFirstLine(t: string, key: string)
    ensures forall p: nat :: 0 < p <= Eol(t) ==> !MatchAt(t, key, p)
    ensures MatchAt(t, key, 0) <==> Start(key) <= t
    ensures Start(key) <= t ==> FoundAt(t, key, Lookup(t, key).value, 0)
  {
    assert t[0..] == t;
    forall p: nat | 0 < p <= Eol(t) ensures !MatchAt(t, key, p) {
      NoMatchInside(t, key, p);
    }
    if Start(key) <= t {
      assert Lookup(t, key).value == RestOfLine(t, 0 + |key| + 1);
    }
  }

  lemma {:induction false} FirstMatchShift(t: string, key: string, n: nat, q: nat)
    requires 0 < n <= |t| && t[n - 1] == '\n' && FirstMatchAt(t[n..], key, q)
    requires forall p: nat :: p < n ==> !MatchAt(t, key, p)
    ensures FirstMatchAt(t, key, n + q)
  {
    MatchShift(t, key, n, q);
    forall p: nat | p < n + q ensures !MatchAt(t, key, p) {
      if p >= n {
        MatchShift(t, key, n, p - n);
      }
    }
  }

  lemma {:induction false} NoMatchShift(t: string, key: string, n: nat)
    requires 0 < n <= |t| && t[n - 1] == '\n'
    requires forall p: nat :: p < n ==> !MatchAt(t, key, p)
    requires forall p: nat :: !MatchAt(t[n..], key, p)
    ensures forall p: nat :: !MatchAt(t, key, p)
  {
    forall p: nat ensures !MatchAt(t, key, p) {
      if p >= n {
        MatchShift(t, key, n, p - n);
      }
    }
  }

  lemma {:induction false} RestOfLineShift(t: string, n: nat, from: nat)
    requires n <= |t|
    ensures RestOfLine(t, n + from) == RestOfLine(t[n..], from)
  {
    if n + from <= |t| {
      DropDrop(t, n, from);
    }
  }

  // ---------------------------------------------------------------------------
  // The same text as a list of lines.

  /** The lines of a text, a final line break ending the last line. */
  function Lines(t: string): seq<string>
    decreases |t|
  {
    if t == "" then []
    else if Eol(t) == |t| then [t]
    else [t[..Eol(t)]] + Lines(t[Eol(t) + 1..])
  }

  function FindLine(lines: seq<string>, key: string): (i: nat)
    ensures i <= |lines| && (i < |lines| ==> Start(key) <= lines[i])
    ensures forall j :: 0 <= j < i ==> !(Start(key) <= lines[j])
  {
    if lines == [] || Start(key) <= lines[0] then 0 else 1 + FindLine(lines[1..], key)
  }

  function LookupLine(lines: seq<string>, key: string): Option<string> {
    var i := FindLine(lines, key);
    if i < |lines| then Some(lines[i][|key| + 1..]) else None
  }

  lemma {:induction false} EolOf(a: string, rest: string)
    requires '\n' !in a && (rest == "" || rest[0] == '\n')
    ensures Eol(a + rest) == |a|
  {
    if a == "" {
      assert a + rest == rest;
    } else {
      EolOf(a[1..], rest);
      assert (a + rest)[1..] == a[1..] + rest;
      assert a[0] in a;
    }
  }

  lemma {:induction false} StartWithinLine(t: string, key: string)
    requires '\n' !in key
    ensures Start(key) <= t <==> Start(key) <= t[..Eol(t)]
    ensures Start(key) <= t ==> Eol(t) == |key| + 1 + Eol(t[|key| + 1..])
    ensures Start(key) <= t ==> t[|key| + 1..][..Eol(t[|key| + 1..])] == t[..Eol(t)][|key| + 1..]
  {
    if Start(key) <= t {
      var a, b := Start(key), t[|key| + 1..];
      assert t == a + b;
      var line := a + b[..Eol(b)];
      EolIsFirst(b);
      assert t == line + b[Eol(b)..];
      EolOf(line, b[Eol(b)..]);
    }
  }

  /** The text scan and the list search agree. */
  lemma {:induction false} LookupIsLineLookup(t: string, key: string)
    requires '\n' !in key
    ensures Lookup(t, key) == LookupLine(Lines(t), key)
    decreases |t|
  {
    if t == "" {
    } else {
      LinesHead(t);
      LookupLineStep(Lines(t), key);
      LookupStep(t, key);
      if Eol(t) < |t| && !(Start(key) <= t) {
        LookupIsLineLookup(t[Eol(t) + 1..], key);
      }
    }
  }

  lemma {:induction false} LookupStep(t: string, key: string)
    requires '\n' !in key
    ensures Start(key) <= t[..Eol(t)] ==> Lookup(t, key) == Some(t[..Eol(t)][|key| + 1..])
    ensures Start(key) <= t <==> Start(key) <= t[..Eol(t)]
  {
    StartWithinLine(t, key);
  }

  lemma {:induction false} LookupLineStep(lines: seq<string>, key: string)
    requires lines != []
    ensures LookupLine(lines, key) ==
      if Start(key) <= lines[0] then Some(lines[0][|key| + 1..]) else LookupLine(lines[1..], key)
  {
  }

  lemma {:induction false} LinesHead(t: string)
    requires t != ""
    ensures Lines(t) != [] && Lines(t)[0] == t[..Eol(t)]
    ensures Lines(t)[1..] == if Eol(t) < |t| then Lines(t[Eol(t) + 1..]) else []
  {
    if Eol(t) == |t| {
      assert t[..Eol(t)] == t;
    }
  }

  lemma {:induction false} LinesOfConcat(line: string, rest: string)
    requires '\n' !in line
    ensures Lines((line + "\n") + rest) == [line] + Lines(rest)
  {
    var t := (line + "\n") + rest;
    assert Eol(t) == |line| by {
      assert t == line + ("\n" + rest);
      EolOf(line, "\n" + rest);
    }
    assert t[..|line|] == line && t[|line| + 1..] == rest;
  }

  lemma {:induction false} SwapLineBreak(line: string, t: string, n: nat)
    requires n < |t| && t[n] == '\n'
    ensures line + t[n..] == (line + "\n") + t[n + 1..]
    ensures t[..n + 1] == t[..n] + "\n"
  {
    SplitAround(t, n);
    ConcatAssoc(line, "\n", t[n + 1..]);
  }

  lemma {:induction false} LinesOfOpenLine(line: string)
    requires '\n' !in line && line != ""
    ensures Eol(line) == |line| && Lines(line) == [line]
  {
    EolOf(line, "");
    assert line + "" == line;
  }

  lemma {:induction false} StartEol(t: string, key: string)
    requires '\n' !in key && Start(key) <= t
    ensures Eol(t) == |key| + 1 + Eol(t[|key| + 1..])
  {
    StartWithinLine(t, key);
  }

  lemma {:induction false} ReplaceHere(t: string, key: string, line: string)
    requires '\n' !in key && Start(key) <= t
    ensures Replace(t, key, line) == line + t[Eol(t)..]
  {
    StartEol(t, key);
  }

  lemma {:induction false} FirstLineFound(t: string, key: string)
    requires '\n' !in key && Start(key) <= t
    ensures Lines(t) != [] && FindLine(Lines(t), key) == 0
  {
    StartWithinLine(t, key);
    if Eol(t) == |t| {
      assert t[..Eol(t)] == t;
    }
  }

  lemma {:induction false} TerminateConcat(a: string, b: string)
    requires a != "" && a[|a| - 1] == '\n'
    ensures Terminate(a + b) == a + Terminate(b)
  {
    if b == "" {
      assert a + b == a;
    } else {
      assert (a + b)[|a + b| - 1] == b[|b| - 1];
      ConcatAssoc(a, b, "\n");
    }
  }

  lemma {:induction false} LinesOfTerminated(t: string, x: string)
    ensures Lines(Terminate(t) + x) == Lines(t) + Lines(x)
    decreases |t|
  {
    var n := Eol(t);
    EolIsFirst(t);
    if t == "" {
      assert Terminate(t) + x == x;
    } else if n == |t| {
      assert t[|t| - 1] in t[..n];
      assert t[..n] == t;
      LinesOfConcat(t, x);
    } else {
      LinesOfTerminated(t[n + 1..], x);
      SplitAtEol(t);
      LinesOfTerminatedLater(t[..n], t[n + 1..], x);
    }
  }

  lemma {:induction false} LinesOfTerminatedLater(head: string, rest: string, x: string)
    requires '\n' !in head && Lines(Terminate(rest) + x) == Lines(rest) + Lines(x)
    ensures Lines(Terminate((head + "\n") + rest) + x) == Lines((head + "\n") + rest) + Lines(x)
  {
    TerminatedConcat(head + "\n", rest, x);
    LinesOfConcat(head, Terminate(rest) + x);
    LinesOfConcat(head, rest);
    ConcatAssoc([head], Lines(rest), Lines(x));
  }

  lemma {:induction false} SplitAtEol(t: string)
    requires Eol(t) < |t|
    ensures t == (t[..Eol(t)] + "\n") + t[Eol(t) + 1..]
  {
    SplitAround(t, Eol(t));
  }

  lemma {:induction false} TerminatedConcat(a: string, b: string, x: string)
    requires a != "" && a[|a| - 1] == '\n'
    ensures Terminate(a + b) + x == a + (Terminate(b) + x)
  {
    TerminateConcat(a, b);
    ConcatAssoc(a, Terminate(b), x);
  }

  lemma {:induction false} LinesOfClosed(a: string, b: string)
    requires a != "" && a[|a| - 1] == '\n'
    ensures Lines(a + b) == Lines(a) + Lines(b)
  {
    LinesOfTerminated(a, b);
  }

  /** In the list of lines the first line of the key gives way to the lines of the replacement; only
      where it was the last line, without a line break, the replacement stays open. */
  ghost predicate LinesReplaced(t: string, key: string, line: string)
    requires t != "" && Lookup(t, key).Some?
  {
    var lines, i := Lines(t), FindLine(Lines(t), key);
    && i < |lines|
    && Lines(Replace(t, key, line)) ==
         lines[..i] + Lines(if i + 1 < |lines| || t[|t| - 1] == '\n' then line + "\n" else line) + lines[i + 1..]
  }

  lemma {:induction false} LinesOfReplace(t: string, key: string, line: string)
    requires '\n' !in key && Lookup(t, key).Some?
    ensures t != "" && LinesReplaced(t, key, line)
    decreases |t|
  {
    if Start(key) <= t {
      FirstLineFound(t, key);
      ReplaceHere(t, key, line);
      if Eol(t) < |t| {
        ReplacedClosed(t, key, line);
      } else {
        ReplacedOpen(t, key, line);
      }
    } else {
      var head, rest := t[..Eol(t)], t[Eol(t) + 1..];
      LinesOfReplace(rest, key, line);
      EolIsFirst(t);
      StartWithinLine(t, key);
      SplitAtEol(t);
      assert t[..Eol(t) + 1] == head + "\n";
      ReplacedLater(head, rest, key, line);
    }
  }

  lemma {:induction false} ReplacedClosed(t: string, key: string, line: string)
    requires '\n' !in key && Start(key) <= t && Eol(t) < |t|
    requires FindLine(Lines(t), key) == 0 && Replace(t, key, line) == line + t[Eol(t)..]
    ensures LinesReplaced(t, key, line)
  {
    LinesHead(t);
    ClosedReplacement(t, line);
    LinesNotEmpty(t[Eol(t) + 1..]);
    AtFront(Lines(t), Lines(line + "\n"));
  }

  lemma {:induction false} ClosedReplacement(t: string, line: string)
    requires Eol(t) < |t|
    ensures Lines(line + t[Eol(t)..]) == Lines(line + "\n") + Lines(t[Eol(t) + 1..])
    ensures t[|t| - 1] == '\n' || t[Eol(t) + 1..] != ""
  {
    SwapLineBreak(line, t, Eol(t));
    LinesOfClosed(line + "\n", t[Eol(t) + 1..]);
  }

  lemma {:induction false} AtFront(lines: seq<string>, added: seq<string>)
    requires lines != []
    ensures lines[..0] + added + lines[1..] == added + lines[1..]
  {
    assert lines[..0] + added == added;
  }

  lemma {:induction false} LinesNotEmpty(t: string)
    ensures Lines(t) == [] <==> t == ""
  {
  }

  lemma {:induction false} ReplacedOpen(t: string, key: string, line: string)
    requires '\n' !in key && Start(key) <= t && Eol(t) == |t|
    requires FindLine(Lines(t), key) == 0 && Replace(t, key, line) == line + t[Eol(t)..]
    ensures LinesReplaced(t, key, line)
  {
    EolIsFirst(t);
    assert t[..Eol(t)] == t && t[|t| - 1] in t;
    assert line + t[|t|..] == line;
    assert Lines(t)[..0] + Lines(line) + Lines(t)[1..] == Lines(line);
  }

  lemma {:induction false} ReplacedLater(head: string, rest: string, key: string, line: string)
    requires '\n' !in head && '\n' !in key && !(Start(key) <= head)
    requires Lookup(rest, key).Some? && rest != "" && LinesReplaced(rest, key, line)
    requires Lookup((head + "\n") + rest, key).Some?
    requires Replace((head + "\n") + rest, key, line) == (head + "\n") + Replace(rest, key, line)
    ensures LinesReplaced((head + "\n") + rest, key, line)
  {
    LinesOfConcat(head, rest);
    LinesOfConcat(head, Replace(rest, key, line));
    var t := (head + "\n") + rest;
    assert t[|t| - 1] == rest[|rest| - 1];
    PutBehind(head, Lines(rest), key);
    var lines, i := Lines(rest), FindLine(Lines(rest), key);
    var added := Lines(if i + 1 < |lines| || rest[|rest| - 1] == '\n' then line + "\n" else line);
    InsertBehind(head, lines, i, added);
  }

  lemma {:induction false} InsertBehind(head: string, lines: seq<string>, i: nat, added: seq<string>)
    requires i < |lines|
    ensures [head] + (lines[..i] + added + lines[i + 1..]) == ([head] + lines)[..1 + i] + added + ([head] + lines)[1 + i + 1..]
  {
    assert ([head] + lines)[..1 + i] == [head] + lines[..i];
    assert ([head] + lines)[1 + i + 1..] == lines[i + 1..];
    ConcatAssoc([head], lines[..i], added);
    ConcatAssoc([head], lines[..i] + added, lines[i + 1..]);
  }

  lemma {:induction false} PutBehind(head: string, rest: seq<string>, key: string)
    requires !(Start(key) <= head)
    ensures FindLine([head] + rest, key) == 1 + FindLine(rest, key)
  {
    assert ([head] + rest)[1..] == rest;
  }

  /** A replacement on one line changes one line of the list, the first of the key, and no other. */
  lemma {:induction false} LinesOfReplaceOne(t: string, key: string, line: string)
    requires '\n' !in key && '\n' !in line && line != "" && Lookup(t, key).Some?
    ensures FindLine(Lines(t), key) < |Lines(t)|
    ensures Lines(Replace(t, key, line)) == Lines(t)[FindLine(Lines(t), key) := line]
  {
    LinesOfReplace(t, key, line);
    OneLineEitherWay(line);
    UpdateAsSplit(Lines(t), FindLine(Lines(t), key), line);
  }

  lemma {:induction false} OneLineEitherWay(line: string)
    requires '\n' !in line && line != ""
    ensures Lines(line) == Lines(line + "\n") == [line]
  {
    LinesOfOpenLine(line);
    LinesOfConcat(line, "");
    assert (line + "\n") + "" == line + "\n";
  }

  lemma {:induction false} UpdateAsSplit(lines: seq<string>, i: nat, line: string)
    requires i < |lines|
    ensures lines[..i] + [line] + lines[i + 1..] == lines[i := line]
  {
  }

  /** Appending adds one line at the end, also when the text lacks a final line break; the text
      itself stays in front and the line is terminated. */
  lemma {:induction false} LinesOfAppend(t: string, line: string)
    requires '\n' !in line
    ensures Lines(Append(t, line)) == Lines(t) + [line]
    ensures t <= Append(t, line) && Append(t, line)[|Append(t, line)| - 1] == '\n'
  {
    LinesOfTerminated(t, line + "\n");
    LinesOfConcat(line, "");
    assert (line + "\n") + "" == line + "\n";
  }
}
