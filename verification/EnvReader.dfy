/** The second reader of the .env file (_parse_env_file in hermes_vps_app/operational.py): the
    last assignment of a key wins, lines and their parts are trimmed. On well-formed files it
    agrees with the first-match reader. */
module EnvReader {
  import opened Collections
  import opened EnvText
  import opened EnvReadBack
  import opened EnvOverlay

  /** Characters at which str.splitlines ends a line. */
  predicate IsBreak(c: char) {
    || 10 <= c as int <= 13 || 28 <= c as int <= 30
    || c as int == 0x85 || c as int == 0x2028 || c as int == 0x2029
  }

  /** No separator of lines occurs in s. */
  predicate NoBreak(s: string) {
    forall c :: c in s ==> !IsBreak(c)
  }

  /** Characters str.strip removes. */
  predicate IsSpace(c: char) {
    || IsBreak(c) || c as int == 9 || c as int == 31 || c as int == 32 || c as int == 0xA0
    || c as int == 0x1680 || 0x2000 <= c as int <= 0x200A
    || c as int == 0x202F || c as int == 0x205F || c as int == 0x3000
  }

  function BreakPos(t: string): (n: nat)
    ensures n <= |t| && (n < |t| ==> IsBreak(t[n]))
  {
    if t == "" || IsBreak(t[0]) then 0 else 1 + BreakPos(t[1..])
  }

  /** str.splitlines; a carriage return and a newline make one line break. */
  function SplitLines(t: string): seq<string>
    decreases |t|
  {
    if t == "" then []
    else
      var n := BreakPos(t);
      if n == |t| then [t]
      else if t[n] == '\r' && n + 1 < |t| && t[n + 1] == '\n' then [t[..n]] + SplitLines(t[n + 2..])
      else [t[..n]] + SplitLines(t[n + 1..])
  }

  function StripLeft(s: string): (r: string)
    ensures r == "" || !IsSpace(r[0])
    ensures |r| <= |s|
  {
    if s != "" && IsSpace(s[0]) then StripLeft(s[1..]) else s
  }

  function StripRight(s: string): (r: string)
    ensures r <= s && (r == "" || !IsSpace(r[|r| - 1]))
  {
    if s != "" && IsSpace(s[|s| - 1]) then StripRight(s[..|s| - 1]) else s
  }

  function Strip(s: string): string {
    StripRight(StripLeft(s))
  }

  predicate Trimmed(s: string) {
    s == "" || (!IsSpace(s[0]) && !IsSpace(s[|s| - 1]))
  }

  lemma StripTrimmed(s: string)
    ensures Trimmed(s) ==> Strip(s) == s
  {
  }

  ghost predicate Blank(s: string) {
    forall c :: c in s ==> IsSpace(c)
  }

  lemma {:induction false} StripLeftMeaning(s: string)
    ensures exists a :: s == a + StripLeft(s) && Blank(a)
  {
    if s == "" || !IsSpace(s[0]) {
      assert s == "" + s && Blank("");
    } else {
      StripLeftMeaning(s[1..]);
      var a :| s[1..] == a + StripLeft(s[1..]) && Blank(a);
      assert s == (s[..1] + a) + StripLeft(s) && Blank(s[..1] + a);
    }
  }

  lemma {:induction false} StripRightMeaning(s: string)
    ensures Blank(s[|StripRight(s)|..])
  {
    if s == "" || !IsSpace(s[|s| - 1]) {
    } else {
      StripRightMeaning(s[..|s| - 1]);
      BlankToEnd(s, |StripRight(s)|);
    }
  }

  lemma BlankToEnd(s: string, n: nat)
    requires n < |s| && IsSpace(s[|s| - 1]) && Blank(s[..|s| - 1][n..])
    ensures Blank(s[n..])
  {
    forall c | c in s[n..] ensures IsSpace(c) {
      var i :| 0 <= i < |s[n..]| && s[n..][i] == c;
      if i < |s| - 1 - n {
        assert s[..|s| - 1][n..][i] == c;
      }
    }
  }

  /** Stripping removes blanks at both ends, all of them and nothing else. */
  lemma StripMeaning(s: string) returns (a: string, b: string)
    ensures s == (a + Strip(s)) + b && Blank(a) && Blank(b)
    ensures Strip(s) == "" || (!IsSpace(Strip(s)[0]) && !IsSpace(Strip(s)[|Strip(s)| - 1]))
  {
    StripLeftMeaning(s);
    a :| s == a + StripLeft(s) && Blank(a);
    var left := StripLeft(s);
    StripRightMeaning(left);
    b := left[|Strip(s)|..];
    assert left == Strip(s) + b;
    ConcatAssoc(a, Strip(s), b);
  }

  /** Whether a trimmed line assigns a key. */
  predicate Assigns(stripped: string) {
    stripped != "" && stripped[0] != '#' && EqualsPos(stripped) < |stripped|
  }

  function KeyOf(line: string): string {
    Strip(line[..EqualsPos(line)])
  }

  function ValueOf(line: string): string
    requires EqualsPos(line) < |line|
  {
    Strip(line[EqualsPos(line) + 1..])
  }

  /** The value of the last line that assigns key. */
  function LastValue(lines: seq<string>, key: string): Option<string> {
    if lines == [] then None
    else
      var line := Strip(lines[|lines| - 1]);
      if Assigns(line) && KeyOf(line) == key then Some(ValueOf(line))
      else LastValue(lines[..|lines| - 1], key)
  }

  /** line is k, an equals sign and v, the first equals sign being the one after k. */
  ghost predicate SplitsAs(line: string, k: string, v: string) {
    line == k + "=" + v && '=' !in k
  }

  /** A piece of the text assigns value to key: it is no comment, and around its first equals sign
      it holds the two, each with blanks around it. */
  ghost predicate AssignedBy(piece: string, key: string, value: string) {
    exists k, v :: SplitsAs(Strip(piece), k, v) && Strip(piece)[0] != '#' && key == Strip(k) && value == Strip(v)
  }

  lemma {:induction false} EqualsPosIsFirst(line: string)
    ensures '=' !in line[..EqualsPos(line)]
  {
    if line == "" || line[0] == '=' {
    } else {
      EqualsPosIsFirst(line[1..]);
      assert line[..EqualsPos(line)] == line[..1] + line[1..][..EqualsPos(line[1..])];
    }
  }

  lemma AssignmentMeaning(piece: string, key: string, value: string)
    ensures AssignedBy(piece, key, value) <==>
            Assigns(Strip(piece)) && KeyOf(Strip(piece)) == key && ValueOf(Strip(piece)) == value
  {
    hide Strip;
    hide EqualsPos;
    var line := Strip(piece);
    if AssignedBy(piece, key, value) {
      var k, v :| SplitsAs(line, k, v) && line[0] != '#' && key == Strip(k) && value == Strip(v);
      EqualsPosOfKey(line, k);
      assert line[|k| + 1..] == v;
    }
    if Assigns(line) && KeyOf(line) == key && ValueOf(line) == value {
      var n := EqualsPos(line);
      EqualsPosIsFirst(line);
      assert line == line[..n] + "=" + line[n + 1..];
      assert SplitsAs(line, line[..n], line[n + 1..]);
    }
  }

  /** The i-th piece is the last one to assign the key. */
  ghost predicate LastToAssign(pieces: seq<string>, i: int, key: string, value: string) {
    && 0 <= i < |pieces| && AssignedBy(pieces[i], key, value)
    && forall j, later :: i < j < |pieces| ==> !AssignedBy(pieces[j], key, later)
  }

  lemma {:induction false} LastValueAt(pieces: seq<string>, key: string, i: nat)
    requires AssignsAt(pieces, key, i) && forall j :: i < j < |pieces| ==> !AssignsAt(pieces, key, j)
    ensures LastValue(pieces, key) == Some(ValueOf(Strip(pieces[i])))
  {
    var n := |pieces| - 1;
    if i < n {
      assert !AssignsAt(pieces, key, n);
      forall j | i < j < n ensures !AssignsAt(pieces[..n], key, j) {
        assert !AssignsAt(pieces, key, j);
      }
      LastValueAt(pieces[..n], key, i);
    }
  }

  lemma LastValueMeaning(pieces: seq<string>, i: nat, key: string, value: string)
    requires LastToAssign(pieces, i, key, value)
    ensures LastValue(pieces, key) == Some(value)
  {
    hide AssignedBy;
    hide Strip;
    hide EqualsPos;
    hide KeyOf;
    hide ValueOf;
    hide LastValue;
    AssignmentMeaning(pieces[i], key, value);
    forall j | i < j < |pieces| ensures !AssignsAt(pieces, key, j) {
      if Assigns(Strip(pieces[j])) {
        AssignmentMeaning(pieces[j], key, ValueOf(Strip(pieces[j])));
      }
    }
    LastValueAt(pieces, key, i);
  }

  lemma {:induction false} LastAssignment(pieces: seq<string>, key: string) returns (i: nat)
    requires LastValue(pieces, key).Some?
    ensures AssignsAt(pieces, key, i) && LastValue(pieces, key) == Some(ValueOf(Strip(pieces[i])))
    ensures forall j :: i < j < |pieces| ==> !AssignsAt(pieces, key, j)
  {
    i := |pieces| - 1;
    if !AssignsAt(pieces, key, i) {
      i := LastAssignment(pieces[..i], key);
      forall j | i < j < |pieces| ensures !AssignsAt(pieces, key, j) {
        assert j < |pieces| - 1 ==> !AssignsAt(pieces[..|pieces| - 1], key, j);
      }
    }
  }

  lemma LastIsLastToAssign(pieces: seq<string>, key: string) returns (i: nat)
    requires LastValue(pieces, key).Some?
    ensures LastToAssign(pieces, i, key, LastValue(pieces, key).value)
  {
    hide AssignedBy;
    hide Strip;
    hide EqualsPos;
    hide KeyOf;
    hide ValueOf;
    hide LastValue;
    i := LastAssignment(pieces, key);
    AssignmentMeaning(pieces[i], key, ValueOf(Strip(pieces[i])));
    forall j, later | i < j < |pieces| ensures !AssignedBy(pieces[j], key, later) {
      assert !AssignsAt(pieces, key, j);
      AssignmentMeaning(pieces[j], key, later);
    }
  }

  /** A dictionary with exactly the keys some piece assigns, each with the value of the last piece
      that assigns it. */
  ghost predicate HoldsLastAssignments(pieces: seq<string>, values: map<string, string>) {
    && (forall key :: key in values <==> exists i, value :: LastToAssign(pieces, i, key, value))
    && (forall i, key, value :: LastToAssign(pieces, i, key, value) ==> key in values && values[key] == value)
  }

  lemma LastValuesHold(pieces: seq<string>, values: map<string, string>)
    requires forall key :: key in values <==> LastValue(pieces, key).Some?
    requires forall key :: key in values ==> LastValue(pieces, key) == Some(values[key])
    ensures HoldsLastAssignments(pieces, values)
  {
    hide LastValue;
    hide LastToAssign;
    forall i, key, value | LastToAssign(pieces, i, key, value) ensures key in values && values[key] == value {
      LastToAssignIsIn(pieces, i, key, value);
      LastValueMeaning(pieces, i, key, value);
    }
    forall key | key in values ensures exists i, value :: LastToAssign(pieces, i, key, value) {
      var i := LastIsLastToAssign(pieces, key);
    }
  }

  lemma LastToAssignIsIn(pieces: seq<string>, i: int, key: string, value: string)
    requires LastToAssign(pieces, i, key, value)
    ensures 0 <= i < |pieces|
  {
  }

  method ParseEnvFile(text: string) returns (values: map<string, string>)
    ensures HoldsLastAssignments(SplitLines(text), values)
    ensures forall key :: key in values <==> LastValue(SplitLines(text), key).Some?
    ensures forall key :: key in values ==> LastValue(SplitLines(text), key) == Some(values[key])
  {
    values := ReadLines(SplitLines(text));
    LastValuesHold(SplitLines(text), values);
  }

  method ReadLines(lines: seq<string>) returns (values: map<string, string>)
    ensures forall key :: key in values <==> LastValue(lines, key).Some?
    ensures forall key :: key in values ==> LastValue(lines, key) == Some(values[key])
  {
    values := map[];
    for i := 0 to |lines|
      invariant forall key :: key in values <==> LastValue(lines[..i], key).Some?
      invariant forall key :: key in values ==> LastValue(lines[..i], key) == Some(values[key])
    {
      assert lines[..i + 1][..i] == lines[..i];
      var line := Strip(lines[i]);
      if Assigns(line) {
        values := values[KeyOf(line) := ValueOf(line)];
      }
    }
    assert lines[..|lines|] == lines;
  }

  /** A line the two readers understand alike: trimmed, and so are the key and the value of an
      assignment. */
  predicate PlainLine(line: string) {
    && Trimmed(line)
    && NoBreak(line)
    && (Assigns(line) ==> Trimmed(line[..EqualsPos(line)]) && Trimmed(line[EqualsPos(line) + 1..]))
  }

  /** Two lines that assign do not assign the same key. */
  predicate DifferentKeys(a: string, b: string) {
    Assigns(a) && Assigns(b) ==> a[..EqualsPos(a)] != b[..EqualsPos(b)]
  }

  ghost predicate WellFormedLines(lines: seq<string>) {
    && (forall line :: line in lines ==> PlainLine(line))
    && forall i, j :: 0 <= i < j < |lines| ==> DifferentKeys(lines[i], lines[j])
  }

  ghost predicate WellFormed(t: string) {
    WellFormedLines(Lines(t))
  }

  /** Keys of assignments as the program writes them. */
  predicate PlainKey(key: string) {
    GoodKey(key) && Trimmed(key) && key[0] != '#' && NoBreak(key)
  }

  predicate PlainValue(value: string) {
    Trimmed(value) && NoBreak(value)
  }

  lemma {:induction false} BreakPosOf(a: string, rest: string)
    requires NoBreak(a) && (rest == "" || IsBreak(rest[0]))
    ensures BreakPos(a + rest) == |a|
  {
    if a == "" {
      assert a + rest == rest;
    } else {
      BreakPosOf(a[1..], rest);
      assert (a + rest)[1..] == a[1..] + rest;
      assert a[0] in a;
    }
  }

  /** Without other line breaks inside, splitlines gives the newline-separated lines. */
  lemma {:induction false} SplitIsLines(t: string)
    requires forall line, c :: line in Lines(t) && c in line ==> !IsBreak(c)
    ensures SplitLines(t) == Lines(t)
    decreases |t|
  {
    if t == "" {
    } else {
      var n := Eol(t);
      var head := t[..n];
      assert head in Lines(t) by {
        if n == |t| { assert head == t; }
      }
      BreakPosOf(head, t[n..]);
      assert t == head + t[n..];
      if n < |t| {
        assert forall line :: line in Lines(t[n + 1..]) ==> line in Lines(t);
        SplitIsLines(t[n + 1..]);
      }
    }
  }

  /** A line ends at its first separator, a carriage return with a newline being one; a last line
      needs none. This says what the pieces of every text are. */
  lemma SplitAtSeparator(head: string, separator: string, rest: string)
    requires NoBreak(head)
    requires separator == "\r\n" || (|separator| == 1 && IsBreak(separator[0]))
    requires separator == "\r" ==> rest == "" || rest[0] != '\n'
    ensures SplitLines(head + (separator + rest)) == [head] + SplitLines(rest)
    ensures head != "" ==> SplitLines(head) == [head]
    ensures SplitLines("") == []
  {
    var t := head + (separator + rest);
    BreakPosOf(head, separator + rest);
    assert t[..|head|] == head && t[|head|] == separator[0];
    assert t[|head| + |separator|..] == rest;
    if separator == "\r" && rest != "" {
      assert t[|head| + 1] == rest[0];
    }
    BreakPosOf(head, "");
    assert head + "" == head;
  }

  /** A plain line assigns a plain key exactly when it begins with KEY=. */
  lemma AssignsKey(line: string, key: string)
    requires PlainLine(line) && PlainKey(key)
    ensures Assigns(line) && KeyOf(line) == key <==> Start(key) <= line
    ensures Start(key) <= line ==> ValueOf(line) == line[|key| + 1..] && line[..EqualsPos(line)] == key
  {
    if Start(key) <= line {
      EqualsPosOfKey(line, key);
      StripTrimmed(key);
      StripTrimmed(line[|key| + 1..]);
    }
    if Assigns(line) && KeyOf(line) == key {
      var n := EqualsPos(line);
      StripTrimmed(line[..n]);
      assert line[..n + 1] == Start(key);
    }
  }

  lemma {:induction false} LookupLineSnoc(lines: seq<string>, line: string, key: string)
    ensures LookupLine(lines + [line], key) ==
      if LookupLine(lines, key).Some? then LookupLine(lines, key)
      else if Start(key) <= line then Some(line[|key| + 1..]) else None
  {
    if lines == [] {
      assert [] + [line] == [line];
    } else {
      assert (lines + [line])[1..] == lines[1..] + [line];
      LookupLineSnoc(lines[1..], line, key);
    }
  }

  /** In a well-formed list, a line that assigns key is the only one to do so. */
  lemma OnlyAssignment(lines: seq<string>, key: string)
    requires lines != [] && WellFormedLines(lines) && PlainKey(key) && Start(key) <= lines[|lines| - 1]
    ensures LookupLine(lines[..|lines| - 1], key).None?
  {
    var n := |lines| - 1;
    var i := FindLine(lines[..n], key);
    assert lines[n] in lines;
    AssignsKey(lines[n], key);
    if i < n {
      assert lines[i] in lines && DifferentKeys(lines[i], lines[n]);
      AssignsKey(lines[i], key);
    }
  }

  lemma {:induction false} LastIsFirst(lines: seq<string>, key: string)
    requires WellFormedLines(lines) && PlainKey(key)
    ensures LastValue(lines, key) == LookupLine(lines, key)
  {
    if lines == [] {
    } else {
      var front, line := lines[..|lines| - 1], lines[|lines| - 1];
      assert lines == front + [line];
      LastIsFirst(front, key);
      LookupLineSnoc(front, line, key);
      assert line in lines;
      StripTrimmed(line);
      AssignsKey(line, key);
      if Start(key) <= line {
        OnlyAssignment(lines, key);
      }
    }
  }

  /** On a well-formed file both readers give every plain key the same value, a missing key
      counting as empty. */
  lemma ReadersAgree(t: string, key: string)
    requires WellFormed(t) && PlainKey(key)
    ensures LastValue(SplitLines(t), key) == Lookup(t, key)
    ensures GetValue(t, key) == (match LastValue(SplitLines(t), key) case Some(v) => v case None => "")
  {
    SplitIsLines(t);
    LastIsFirst(Lines(t), key);
    LookupIsLineLookup(t, key);
  }

  // ---------------------------------------------------------------------------
  // Exactly when the two readers agree on a key.

  predicate AssignsAt(pieces: seq<string>, key: string, i: int) {
    0 <= i < |pieces| && Assigns(Strip(pieces[i])) && KeyOf(Strip(pieces[i])) == key
  }

  ghost predicate Assigned(pieces: seq<string>, key: string) {
    exists i :: AssignsAt(pieces, key, i)
  }

  ghost predicate AssignedOnce(pieces: seq<string>, key: string) {
    forall i, j :: AssignsAt(pieces, key, i) && AssignsAt(pieces, key, j) ==> i == j
  }

  /** The line the first reader takes holds no other separator, and its value is trimmed. */
  predicate PlainlyAssigned(t: string, key: string) {
    var lines, i := Lines(t), FindLine(Lines(t), key);
    i < |lines| && NoBreak(lines[i]) && Trimmed(lines[i][|key| + 1..])
  }

  function FirstPiece(line: string): string {
    line[..BreakPos(line)]
  }

  lemma {:induction false} BreakPosWithin(a: string, b: string)
    ensures BreakPos(a) < |a| ==> BreakPos(a + b) == BreakPos(a)
    ensures BreakPos(a) == |a| && b != "" && IsBreak(b[0]) ==> BreakPos(a + b) == |a|
    ensures NoBreak(a[..BreakPos(a)])
  {
    if a == "" {
      assert a + b == b;
    } else if !IsBreak(a[0]) {
      BreakPosWithin(a[1..], b);
      assert (a + b)[1..] == a[1..] + b;
      assert a[..BreakPos(a)] == a[..1] + a[1..][..BreakPos(a[1..])];
    }
  }

  /** What follows a line is split as it would be on its own. */
  lemma {:induction false} SplitAfterLine(head: string, rest: string)
    requires '\r' !in head
    ensures forall piece :: piece in SplitLines(rest) ==> piece in SplitLines((head + "\n") + rest)
    ensures SplitLines((head + "\n") + rest) != [] && SplitLines((head + "\n") + rest)[0] == FirstPiece(head)
    decreases |head|
  {
    var t, n := (head + "\n") + rest, BreakPos(head);
    ConcatAssoc(head, "\n", rest);
    BreakPosWithin(head, "\n" + rest);
    assert BreakPos(t) == n && t[..n] == head[..n];
    if n < |head| {
      assert t[n] == head[n] && head[n] in head;
      assert t[n + 1..] == (head[n + 1..] + "\n") + rest;
      SplitAfterLine(head[n + 1..], rest);
    } else {
      assert t[n + 1..] == rest;
    }
  }

  lemma {:induction false} FirstPieceIsSplit(t: string, i: nat)
    requires '\r' !in t && i < |Lines(t)| && Lines(t)[i] != ""
    ensures FirstPiece(Lines(t)[i]) in SplitLines(t)
    decreases |t|
  {
    LinesHead(t);
    if Eol(t) < |t| {
      var head, rest := t[..Eol(t)], t[Eol(t) + 1..];
      SplitAtEol(t);
      SplitAfterLine(head, rest);
      if i > 0 {
        FirstPieceIsSplit(rest, i - 1);
        assert Lines(t)[i] == Lines(rest)[i - 1];
      }
    } else {
      assert t[..Eol(t)] == t;
      assert SplitLines(t)[0] == FirstPiece(t);
    }
  }

  lemma {:induction false} StripRightBehind(a: string, v: string)
    requires a != "" && !IsSpace(a[|a| - 1])
    ensures StripRight(a + v) == a + StripRight(v)
  {
    if v == "" || !IsSpace(v[|v| - 1]) {
    } else {
      assert (a + v)[..|a + v| - 1] == a + v[..|v| - 1];
      StripRightBehind(a, v[..|v| - 1]);
    }
  }

  /** A piece that begins with KEY= assigns the key, with what follows trimmed. */
  lemma PieceAssigns(piece: string, key: string)
    requires PlainKey(key) && Start(key) <= piece
    ensures Assigns(Strip(piece)) && KeyOf(Strip(piece)) == key
    ensures ValueOf(Strip(piece)) == Strip(StripRight(piece[|key| + 1..]))
  {
    var v := piece[|key| + 1..];
    assert piece == Start(key) + v;
    assert piece[0] == key[0] && !IsSpace('=');
    StripRightBehind(Start(key), v);
    var line := Start(key) + StripRight(v);
    assert Strip(piece) == line;
    EqualsPosOfKey(line, key);
    StripTrimmed(key);
    assert line[|key| + 1..] == StripRight(v);
  }

  lemma {:induction false} StripIsTrimmed(s: string)
    ensures Trimmed(Strip(s)) && |Strip(s)| <= |s|
  {
  }

  lemma StripUnchanged(v: string, whole: string)
    requires v <= whole
    ensures Strip(StripRight(v)) == whole <==> v == whole && Trimmed(v)
  {
    StripIsTrimmed(StripRight(v));
    StripTrimmed(v);
    if v == whole && Trimmed(v) {
      assert StripRight(v) == v;
    }
  }

  lemma {:induction false} AssignmentIsSeen(pieces: seq<string>, key: string, i: nat)
    requires AssignsAt(pieces, key, i)
    ensures LastValue(pieces, key).Some?
  {
    if i < |pieces| - 1 {
      AssignmentIsSeen(pieces[..|pieces| - 1], key, i);
    }
  }

  lemma LastValueIs(pieces: seq<string>, key: string, i: nat)
    requires AssignsAt(pieces, key, i) && AssignedOnce(pieces, key)
    ensures LastValue(pieces, key) == Some(ValueOf(Strip(pieces[i])))
  {
    AssignmentIsSeen(pieces, key, i);
    var j := LastAssignment(pieces, key);
  }

  lemma NoLastValue(pieces: seq<string>, key: string)
    ensures LastValue(pieces, key).None? <==> !Assigned(pieces, key)
  {
    if LastValue(pieces, key).Some? {
      var i := LastAssignment(pieces, key);
    }
    if Assigned(pieces, key) {
      var i :| AssignsAt(pieces, key, i);
      AssignmentIsSeen(pieces, key, i);
    }
  }

  /** In any file that assigns a plain key at most once, the readers give it the same value exactly
      when it is not assigned, or the first reader's line holds no other separator and has a trimmed
      value. */
  lemma ReadersAgreeIff(t: string, key: string)
    requires '\r' !in t && PlainKey(key) && AssignedOnce(SplitLines(t), key)
    ensures LastValue(SplitLines(t), key) == Lookup(t, key) <==>
            (Assigned(SplitLines(t), key) ==> PlainlyAssigned(t, key))
  {
    LookupIsLineLookup(t, key);
    NoLastValue(SplitLines(t), key);
    var i := FindLine(Lines(t), key);
    if i < |Lines(t)| {
      FoundLineRead(t, key, Lines(t)[i], i);
    }
  }

  lemma FoundLineRead(t: string, key: string, line: string, i: nat)
    requires '\r' !in t && PlainKey(key) && AssignedOnce(SplitLines(t), key)
    requires i < |Lines(t)| && Lines(t)[i] == line && Start(key) <= line
    ensures Assigned(SplitLines(t), key)
    ensures LastValue(SplitLines(t), key) == Some(line[|key| + 1..]) <==> NoBreak(line) && Trimmed(line[|key| + 1..])
  {
    FirstPieceIsSplit(t, i);
    var j :| 0 <= j < |SplitLines(t)| && SplitLines(t)[j] == FirstPiece(line);
    FirstPieceOfKey(line, key);
    PieceAssigns(FirstPiece(line), key);
    assert AssignsAt(SplitLines(t), key, j);
    LastValueIs(SplitLines(t), key, j);
    StripUnchanged(FirstPiece(line)[|key| + 1..], line[|key| + 1..]);
  }

  lemma FirstPieceOfKey(line: string, key: string)
    requires PlainKey(key) && Start(key) <= line
    ensures Start(key) <= FirstPiece(line) && FirstPiece(line)[|key| + 1..] <= line[|key| + 1..]
    ensures FirstPiece(line)[|key| + 1..] == line[|key| + 1..] <==> NoBreak(line)
  {
    var v := line[|key| + 1..];
    assert line == Start(key) + v;
    BreakPosBehind(Start(key), v);
    BreakPosWithin(line, "");
    assert line + "" == line;
    if NoBreak(line) {
      BreakPosOf(line, "");
    }
    assert BreakPos(line) == |line| ==> line[..BreakPos(line)] == line;
  }

  lemma {:induction false} BreakPosBehind(a: string, v: string)
    requires NoBreak(a)
    ensures BreakPos(a + v) == |a| + BreakPos(v)
  {
    if a == "" {
      assert a + v == v;
    } else {
      BreakPosBehind(a[1..], v);
      assert (a + v)[1..] == a[1..] + v;
      assert a[0] in a;
    }
  }

  /** A file of one line KEY=v is read alike exactly when v is trimmed: one space is enough to make
      the readers differ. */
  lemma SpacedValueDiffers(key: string, v: string)
    requires PlainKey(key) && NoBreak(v)
    ensures var t := (Start(key) + v) + "\n"; LastValue(SplitLines(t), key) == Lookup(t, key) <==> Trimmed(v)
  {
    var line := Start(key) + v;
    var t := line + "\n";
    assert forall c :: c in line ==> !IsBreak(c);
    OneLineFile(line);
    OnlyLine(line, key);
    assert line[|key| + 1..] == v;
    ReadersAgreeIff(t, key);
  }

  lemma OnlyLine(line: string, key: string)
    requires PlainKey(key) && Start(key) <= line
    ensures Assigned([line], key) && AssignedOnce([line], key) && FindLine([line], key) == 0
  {
    PieceAssigns(line, key);
    assert AssignsAt([line], key, 0);
  }

  lemma OneLineFile(line: string)
    requires NoBreak(line)
    ensures var t := line + "\n"; '\r' !in t && SplitLines(t) == Lines(t) == [line]
  {
    var t := line + "\n";
    BreakPosOf(line, "\n");
    assert t[..|line|] == line && t[|line| + 1..] == "";
    LinesOfConcat(line, "");
    assert t + "" == t;
  }

  lemma NewLineIsPlain(key: string, value: string)
    requires PlainKey(key) && PlainValue(value)
    ensures var line := Start(key) + value;
      PlainLine(line) && Assigns(line) && line[..EqualsPos(line)] == key
  {
    var line := Start(key) + value;
    EqualsPosOfKey(line, key);
    assert line[|key| + 1..] == value;
    assert !IsSpace('=');
    assert line[|line| - 1] == if value == "" then '=' else value[|value| - 1];
  }

  /** Writing a plain value under a plain key keeps a file well-formed. */
  lemma UpsertKeepsWellFormed(t: string, key: string, value: string)
    requires WellFormed(t) && PlainKey(key) && PlainValue(value) && Storable(t, key, value)
    ensures Upsert(t, key, value).Some? && WellFormed(Upsert(t, key, value).value)
  {
    UpsertChangesOneLine(t, key, value);
    NewLineIsPlain(key, value);
    LineKeepsWellFormed(Lines(t), key, Start(key) + value);
  }

  lemma LineKeepsWellFormed(lines: seq<string>, key: string, line: string)
    requires WellFormedLines(lines) && PlainKey(key) && PlainLine(line)
    requires Assigns(line) && line[..EqualsPos(line)] == key && Start(key) <= line
    ensures WellFormedLines(UpsertLine(lines, key, line))
  {
    var i := FindLine(lines, key);
    var after := UpsertLine(lines, key, line);
    forall j | 0 <= j < |lines| && j != i ensures DifferentKeys(lines[j], line) && DifferentKeys(line, lines[j]) {
      assert lines[j] in lines;
      AssignsKey(lines[j], key);
      if i < |lines| {
        assert lines[i] in lines;
        AssignsKey(lines[i], key);
      }
      StripTrimmed(key);
    }
    forall x | x in after ensures PlainLine(x) {
      var j :| 0 <= j < |after| && after[j] == x;
      if j < |lines| {
        assert lines[j] in lines;
      }
    }
  }

  /** Committing plain values keeps a file well-formed, so both readers then agree on what the
      overlay showed. */
  lemma {:induction false} FlushKeepsWellFormed(t: string, d: seq<Entry>)
    requires WellFormed(t) && '\r' !in t && Distinct(d) && AllStorable(t, d)
    requires forall e :: e in d ==> PlainKey(e.key) && PlainValue(e.value)
    ensures UpsertAll(t, d).Some? && WellFormed(UpsertAll(t, d).value)
    decreases |d|
  {
    if d == [] {
    } else {
      var e, rest := d[0], d[1..];
      assert e in d;
      UpsertFrame(t, e.key, e.value);
      UpsertChars(t, e.key, e.value);
      UpsertKeepsWellFormed(t, e.key, e.value);
      var t' := Upsert(t, e.key, e.value).value;
      forall x | x in rest ensures x in d && Storable(t', x.key, x.value) {
        RestDiffers(d, x);
        assert GoodKey(x.key);
      }
      FlushKeepsWellFormed(t', rest);
    }
  }
}
