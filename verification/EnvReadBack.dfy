/** What an upsert of a .env file leaves for the next reader: exactly when the value comes back,
    and that every other key and line is untouched. */
module EnvReadBack {
  import opened Collections
  import opened RegexTemplate
  import opened EnvText

  /** A file read in text mode: every line break becomes a newline. */
  function ReadText(raw: string): string
    decreases |raw|
  {
    if raw == "" then ""
    else if raw[0] != '\r' then raw[..1] + ReadText(raw[1..])
    else if |raw| > 1 && raw[1] == '\n' then "\n" + ReadText(raw[2..])
    else "\n" + ReadText(raw[1..])
  }

  /** The value can be stored in t under key: it fits on one line and, where a line is
      replaced, the template leaves it as it is. */
  predicate Storable(t: string, key: string, value: string) {
    OneLine(value) && (Lookup(t, key).Some? ==> TemplateSafe(value))
  }

  /** Writing succeeds and the next reader gets the value. */
  predicate ReadsBack(t: string, key: string, value: string) {
    Upsert(t, key, value).Some? && GetValue(ReadText(Upsert(t, key, value).value), key) == value
  }

  /** What a caller can check without the file: a value on one line without a backslash can be
      stored in every file under every key. */
  lemma {:induction false} PlainIsStorable(value: string)
    requires OneLine(value) && BACKSLASH !in value
    ensures forall t, key :: Storable(t, key, value)
  {
    PlainIsSafe(value);
  }

  lemma {:induction false} ReadAfterPlain(a: string, b: string)
    requires '\r' !in a
    ensures ReadText(a + b) == a + ReadText(b)
  {
    if a == "" {
      assert a + b == b && a + ReadText(b) == ReadText(b);
    } else {
      assert a[0] in a;
      ReadAfterPlain(a[1..], b);
      assert (a + b)[1..] == a[1..] + b && (a + b)[..1] == a[..1];
      assert a[..1] + (a[1..] + ReadText(b)) == a + ReadText(b);
    }
  }

  lemma {:induction false} ReadPlain(a: string)
    requires '\r' !in a
    ensures ReadText(a) == a
  {
    ReadAfterPlain(a, "");
    assert a + "" == a;
  }

  /** Texts are read piece by piece, unless the cut is inside a line break of two characters; each of
      the three kinds of line break is read as a newline. */
  lemma {:induction false} ReadConcat(a: string, b: string)
    requires a == "" || b == "" || a[|a| - 1] != '\r' || b[0] != '\n'
    ensures ReadText(a + b) == ReadText(a) + ReadText(b)
    ensures ReadText("\r\n") == ReadText("\r") == ReadText("\n") == "\n"
    decreases |a|
  {
    BreaksRead();
    if a == "" {
      assert a + b == b && "" + ReadText(b) == ReadText(b);
    } else {
      var n := if a[0] == '\r' && |a| > 1 && a[1] == '\n' then 2 else 1;
      ReadConcat(a[n..], b);
      assert (a + b)[n..] == a[n..] + b && (a + b)[..1] == a[..1];
      if n == 1 && |a| > 1 {
        assert (a + b)[1] == a[1];
      }
      var first := if a[0] == '\r' then "\n" else a[..1];
      ConcatAssoc(first, ReadText(a[n..]), ReadText(b));
    }
  }

  lemma BreaksRead()
    ensures ReadText("\r\n") == ReadText("\r") == ReadText("\n") == "\n"
  {
    assert "\r\n"[2..] == "" && "\r"[1..] == "" && "\n"[1..] == "" && "\n"[..1] == "\n";
  }

  lemma {:induction false} ReadHasNoReturn(raw: string)
    ensures '\r' !in ReadText(raw)
    decreases |raw|
  {
    if raw == "" {
    } else {
      ReadHasNoReturn(raw[1..]);
      if raw[0] == '\r' && |raw| > 1 {
        ReadHasNoReturn(raw[2..]);
      }
    }
  }

  /** The text of a file; empty when it is missing. */
  function TextOf(disk: Option<string>): string {
    match disk case Some(raw) => ReadText(raw) case None => ""
  }

  lemma TextHasNoReturn(disk: Option<string>)
    ensures '\r' !in TextOf(disk)
  {
    if disk.Some? {
      ReadHasNoReturn(disk.value);
    }
  }

  /** s up to its first line break of either kind. */
  function LineOf(s: string): (r: string)
    ensures r <= s
  {
    if s == "" || s[0] == '\n' || s[0] == '\r' then "" else s[..1] + LineOf(s[1..])
  }

  lemma {:induction false} ReadFirstLine(s: string)
    ensures ReadText(s)[..Eol(ReadText(s))] == LineOf(s)
  {
    if s == "" || s[0] == '\r' || s[0] == '\n' {
    } else {
      ReadFirstLine(s[1..]);
      EolOfCons(s[..1], ReadText(s[1..]));
    }
  }

  lemma {:induction false} EolOfCons(c: string, rest: string)
    requires |c| == 1 && c[0] != '\n'
    ensures Eol(c + rest) == 1 + Eol(rest)
    ensures (c + rest)[..Eol(c + rest)] == c + rest[..Eol(rest)]
  {
    assert (c + rest)[1..] == rest;
  }

  lemma {:induction false} LineOfConcat(a: string, b: string)
    requires b == "" || b[0] == '\n'
    ensures LineOf(a + b) == LineOf(a)
  {
    if a == "" {
      assert a + b == b;
    } else {
      LineOfConcat(a[1..], b);
      assert (a + b)[1..] == a[1..] + b && (a + b)[..1] == a[..1];
    }
  }

  lemma {:induction false} LookupSkip(head: string, rest: string, key: string)
    requires '\n' !in head && '\n' !in key && !(Start(key) <= head)
    ensures Lookup((head + "\n") + rest, key) == Lookup(rest, key)
  {
    var t := (head + "\n") + rest;
    assert Eol(t) == |head| by {
      ConcatAssoc(head, "\n", rest);
      EolOf(head, "\n" + rest);
    }
    StartWithinLine(t, key);
    assert t[..|head|] == head && t[|head| + 1..] == rest;
  }

  lemma {:induction false} LookupHere(key: string, rest: string)
    ensures Lookup(Start(key) + rest, key) == Some(rest[..Eol(rest)])
  {
    assert (Start(key) + rest)[|key| + 1..] == rest;
  }

  lemma {:induction false} ReplacedHere(key: string, e: string, tail: string)
    requires GoodKey(key) && (tail == "" || tail[0] == '\n')
    ensures Lookup(ReadText((Start(key) + e) + tail), key) == Some(LineOf(e))
  {
    ConcatAssoc(Start(key), e, tail);
    ReadAfterPlain(Start(key), e + tail);
    LookupHere(key, ReadText(e + tail));
    ReadFirstLine(e + tail);
    LineOfConcat(e, tail);
  }

  /** After KEY=e has been written over the first line of the key, the next reader gets e up
      to its first line break. */
  lemma {:induction false} ReplacedReads(t: string, key: string, e: string)
    requires GoodKey(key) && '\r' !in t && Lookup(t, key).Some?
    ensures Lookup(ReadText(Replace(t, key, Start(key) + e)), key) == Some(LineOf(e))
    decreases |t|
  {
    if Start(key) <= t {
      ReplacedReadsHere(t, key, e);
    } else {
      ReplacedReadsLater(t, key, e);
    }
  }

  lemma {:induction false} ReplacedReadsHere(t: string, key: string, e: string)
    requires GoodKey(key) && Start(key) <= t
    ensures Lookup(ReadText(Replace(t, key, Start(key) + e)), key) == Some(LineOf(e))
  {
    hide Lookup;
    hide ReadText;
    hide LineOf;
    ReplaceHere(t, key, Start(key) + e);
    ReplacedHere(key, e, t[Eol(t)..]);
  }

  lemma {:induction false} ReplacedReadsLater(t: string, key: string, e: string)
    requires GoodKey(key) && '\r' !in t && Lookup(t, key).Some? && !(Start(key) <= t)
    ensures Lookup(ReadText(Replace(t, key, Start(key) + e)), key) == Some(LineOf(e))
    decreases |t|, 0
  {
    var head, rest := t[..Eol(t)], t[Eol(t) + 1..];
    ReplacedReads(rest, key, e);
    assert t[..Eol(t) + 1] == head + "\n" by {
      SwapLineBreak("", t, Eol(t));
    }
    ReadAfterPlain(head + "\n", Replace(rest, key, Start(key) + e));
    EolIsFirst(t);
    StartWithinLine(t, key);
    LookupSkip(head, ReadText(Replace(rest, key, Start(key) + e)), key);
  }

  lemma {:induction false} LookupIsOneLine(t: string, key: string)
    requires Lookup(t, key).Some?
    ensures '\n' !in Lookup(t, key).value
    ensures forall c :: c in Lookup(t, key).value ==> c in t
    decreases |t|
  {
    if Start(key) <= t {
      EolIsFirst(t[|key| + 1..]);
    } else {
      LookupIsOneLine(t[Eol(t) + 1..], key);
    }
  }

  lemma {:induction false} MatchIsKeyed(t: string, key: string)
    requires GoodKey(key) && Lookup(t, key).Some?
    ensures KeyedMatch(MatchedLine(t, key))
  {
    var m := MatchedLine(t, key);
    assert m[..|key|] == key && m[|key|] == '=';
    assert EqualsAt(m, |key|);
  }

  lemma {:induction false} ExpandKeyed(key: string, value: string, matched: string)
    requires GoodKey(key)
    ensures Expand(Start(key) + value, matched) == Prepend(Start(key), Expand(value, matched))
  {
    ExpandAfterPlain(Start(key), value, matched);
  }

  /** Of the lines a list can hold: the first of the key replaced, or the line added. */
  function UpsertLine(lines: seq<string>, key: string, line: string): seq<string> {
    var i := FindLine(lines, key);
    if i < |lines| then lines[i := line] else lines + [line]
  }

  /** A storable value is written as it is, and the only line that changes is the first of its
      key, or the one added for it. */
  lemma {:induction false} UpsertChangesOneLine(t: string, key: string, value: string)
    requires GoodKey(key) && Storable(t, key, value)
    ensures Upsert(t, key, value).Some?
    ensures Lines(Upsert(t, key, value).value) == UpsertLine(Lines(t), key, Start(key) + value)
  {
    LookupIsLineLookup(t, key);
    if Lookup(t, key).Some? {
      SafeExpands(value, MatchedLine(t, key));
      ExpandKeyed(key, value, MatchedLine(t, key));
      LinesOfReplaceOne(t, key, Start(key) + value);
    } else {
      LinesOfAppend(t, Start(key) + value);
    }
  }

  lemma {:induction false} FindLineIs(lines: seq<string>, key: string, i: nat)
    requires i < |lines| && Start(key) <= lines[i]
    requires forall j :: 0 <= j < i ==> !(Start(key) <= lines[j])
    ensures FindLine(lines, key) == i
  {
    if i > 0 {
      FindLineIs(lines[1..], key, i - 1);
    }
  }

  /** Where the first equals sign of a line is. */
  function EqualsPos(line: string): (n: nat)
    ensures n <= |line| && (n < |line| ==> line[n] == '=')
  {
    if line == "" || line[0] == '=' then 0 else 1 + EqualsPos(line[1..])
  }

  lemma {:induction false} EqualsPosOfKey(line: string, key: string)
    requires '=' !in key && Start(key) <= line
    ensures EqualsPos(line) == |key| && line[..|key|] == key
  {
    if key == "" {
    } else {
      assert key[0] in key && line[0] == key[0];
      assert Start(key[1..]) <= line[1..];
      EqualsPosOfKey(line[1..], key[1..]);
      assert key == key[..1] + key[1..];
    }
  }

  /** A line belongs to one key only. */
  lemma {:induction false} KeysDontOverlap(line: string, a: string, b: string)
    requires GoodKey(a) && GoodKey(b) && a != b && Start(a) <= line
    ensures !(Start(b) <= line)
  {
    EqualsPosOfKey(line, a);
    if Start(b) <= line {
      EqualsPosOfKey(line, b);
    }
  }

  lemma {:induction false} OtherLineLookup(lines: seq<string>, key: string, line: string, other: string)
    requires GoodKey(key) && GoodKey(other) && key != other && Start(key) <= line
    ensures LookupLine(UpsertLine(lines, key, line), other) == LookupLine(lines, other)
  {
    var after := UpsertLine(lines, key, line);
    var i := FindLine(lines, key);
    KeysDontOverlap(line, key, other);
    if i < |lines| {
      KeysDontOverlap(lines[i], key, other);
    }
    var k := FindLine(lines, other);
    if k < |lines| {
      FindLineIs(after, other, k);
    }
  }

  /** After a storable upsert the key reads the value and every other key reads as before. */
  lemma {:induction false} UpsertFrame(t: string, key: string, value: string)
    requires GoodKey(key) && Storable(t, key, value)
    ensures Upsert(t, key, value).Some?
    ensures Lookup(Upsert(t, key, value).value, key) == Some(value)
    ensures forall other :: GoodKey(other) && other != key ==>
      Lookup(Upsert(t, key, value).value, other) == Lookup(t, other)
  {
    UpsertChangesOneLine(t, key, value);
    var line, lines := Start(key) + value, Lines(t);
    var t' := Upsert(t, key, value).value;
    LookupIsLineLookup(t', key);
    FindLineIs(UpsertLine(lines, key, line), key, FindLine(lines, key));
    forall other | GoodKey(other) && other != key ensures Lookup(t', other) == Lookup(t, other) {
      LookupIsLineLookup(t, other);
      LookupIsLineLookup(t', other);
      OtherLineLookup(lines, key, line, other);
    }
  }

  lemma {:induction false} ReplaceChars(t: string, key: string, line: string)
    requires Lookup(t, key).Some?
    ensures forall c :: c in Replace(t, key, line) ==> c in t || c in line
    decreases |t|
  {
    if !(Start(key) <= t) {
      ReplaceChars(t[Eol(t) + 1..], key, line);
    }
  }

  /** A storable upsert brings in no character but those of the line and a newline. */
  lemma {:induction false} UpsertChars(t: string, key: string, value: string)
    requires GoodKey(key) && Storable(t, key, value)
    ensures Upsert(t, key, value).Some?
    ensures forall c :: c in Upsert(t, key, value).value ==> c in t || c in key || c in value || c == '=' || c == '\n'
  {
    var line := Start(key) + value;
    if Lookup(t, key).Some? {
      SafeExpands(value, MatchedLine(t, key));
      ExpandKeyed(key, value, MatchedLine(t, key));
      ReplaceChars(t, key, line);
    }
  }

  /** The value comes back exactly when it is storable. */
  lemma {:induction false} ReadsBackIffStorable(t: string, key: string, value: string)
    requires GoodKey(key) && '\r' !in t
    ensures ReadsBack(t, key, value) <==> Storable(t, key, value)
  {
    if Storable(t, key, value) {
      UpsertFrame(t, key, value);
      UpsertChars(t, key, value);
      ReadPlain(Upsert(t, key, value).value);
    } else if Upsert(t, key, value).Some? {
      var t' := Upsert(t, key, value).value;
      if OneLine(value) {
        UnsafeIsLost(t, key, value);
      } else if Lookup(ReadText(t'), key).Some? {
        LookupIsOneLine(ReadText(t'), key);
        ReadHasNoReturn(t');
      }
    }
  }

  lemma {:induction false} UnsafeIsLost(t: string, key: string, value: string)
    requires GoodKey(key) && '\r' !in t && Lookup(t, key).Some? && !TemplateSafe(value)
    requires Upsert(t, key, value).Some?
    ensures GetValue(ReadText(Upsert(t, key, value).value), key) != value
  {
    var matched := MatchedLine(t, key);
    MatchIsKeyed(t, key);
    ExpandKeyed(key, value, matched);
    var e := Expand(value, matched).value;
    UnsafeDiffers(value, matched);
    ReplacedReads(t, key, e);
    assert LineOf(e) <= e;
  }

  /** A value with two backslashes comes back with one when it replaces another. */
  lemma {:induction false} BackslashIsLost()
    ensures !Storable("K=old\n", "K", "a\\\\b") && !ReadsBack("K=old\n", "K", "a\\\\b")
  {
    var t, key, value := "K=old\n", "K", "a\\\\b";
    assert Start(key) <= t;
    assert Lookup(t, key).Some?;
    assert value[1..] == "\\\\b";
    assert !TemplateSafe(value[1..]);
    assert !TemplateSafe(value);
    ReadsBackIffStorable(t, key, value);
  }
}
