/** A commit of several staged values, exactly: all of them come back from the file when and only
    when each can be stored. One value that cannot be stored is enough to lose a value, whatever
    the later ones put into the file. */
module CommitExactness {
  import opened Collections
  import opened RegexTemplate
  import opened EnvText
  import opened EnvReadBack
  import opened EnvOverlay

  /** Every entry comes back from a file holding raw. */
  ghost predicate AllReadBack(raw: string, d: seq<Entry>) {
    forall e :: e in d ==> GetValue(ReadText(raw), e.key) == e.value
  }

  /** Values that can be stored in any file, under any key. */
  predicate PlainText(value: string) {
    OneLine(value) && TemplateSafe(value)
  }

  /** Every entry that cannot be stored everywhere comes back. */
  ghost predicate RiskyReadBack(raw: string, d: seq<Entry>) {
    forall e :: e in d && !PlainText(e.value) ==> GetValue(ReadText(raw), e.key) == e.value
  }

  ghost predicate AllOneLine(d: seq<Entry>) {
    forall e :: e in d ==> OneLine(e.value)
  }

  /** Whole lines, without a carriage return. */
  ghost predicate Closed(a: string) {
    '\r' !in a && (a == "" || a[|a| - 1] == '\n')
  }

  /** x is a followed by the first line of key, which does not hold value. */
  ghost predicate LostAt(x: string, a: string, w: string, key: string, value: string) {
    x == a + (Start(key) + w) && Closed(a) && Lookup(a, key).None? && LineOf(w) != value
  }

  ghost predicate Lost(x: string, key: string, value: string) {
    exists a, w :: LostAt(x, a, w, key, value)
  }

  lemma {:induction false} EolOfClosed(a: string)
    requires a != "" && a[|a| - 1] == '\n'
    ensures Eol(a) < |a|
  {
    if a[0] != '\n' {
      EolOfClosed(a[1..]);
    }
  }

  lemma {:induction false} EolBefore(s: string, b: string)
    requires Eol(s) < |s|
    ensures Eol(s + b) == Eol(s)
  {
    EolIsFirst(s);
    SplitAround(s, Eol(s));
    EolOf(s[..Eol(s)], s[Eol(s)..] + b);
    ConcatAssoc(s[..Eol(s)], s[Eol(s)..], b);
    assert s == s[..Eol(s)] + s[Eol(s)..];
  }

  /** Lines that are not of key can be skipped, for reading and for replacing. */
  lemma {:induction false} LookupAcross(a: string, b: string, key: string, line: string)
    requires Closed(a) && Lookup(a, key).None? && '\n' !in key
    ensures Lookup(a + b, key) == Lookup(b, key)
    ensures Lookup(b, key).Some? ==> Replace(a + b, key, line) == a + Replace(b, key, line)
    decreases |a|
  {
    if a == "" {
      assert a + b == b;
      assert Lookup(b, key).Some? ==> a + Replace(b, key, line) == Replace(b, key, line);
    } else {
      EolOfClosed(a);
      EolIsFirst(a);
      StartWithinLine(a, key);
      var head, rest := a[..Eol(a)], a[Eol(a) + 1..];
      SplitAtEol(a);
      LookupAcross(rest, b, key, line);
      AcrossStep(head, rest, b, key, line);
    }
  }

  lemma {:induction false} ReplaceSkip(head: string, rest: string, key: string, line: string)
    requires '\n' !in head && '\n' !in key && !(Start(key) <= head) && Lookup(rest, key).Some?
    ensures Lookup((head + "\n") + rest, key).Some?
    ensures Replace((head + "\n") + rest, key, line) == (head + "\n") + Replace(rest, key, line)
  {
    var t := (head + "\n") + rest;
    LookupSkip(head, rest, key);
    assert Eol(t) == |head| by {
      ConcatAssoc(head, "\n", rest);
      EolOf(head, "\n" + rest);
    }
    StartWithinLine(t, key);
    assert t[..|head|] == head && t[..|head| + 1] == head + "\n" && t[|head| + 1..] == rest;
  }

  lemma {:induction false} AcrossStep(head: string, rest: string, b: string, key: string, line: string)
    requires '\n' !in head && '\n' !in key && !(Start(key) <= head)
    requires Lookup(rest + b, key) == Lookup(b, key)
    requires Lookup(b, key).Some? ==> Replace(rest + b, key, line) == rest + Replace(b, key, line)
    ensures Lookup(((head + "\n") + rest) + b, key) == Lookup(b, key)
    ensures Lookup(b, key).Some? ==>
      Replace(((head + "\n") + rest) + b, key, line) == ((head + "\n") + rest) + Replace(b, key, line)
  {
    ConcatAssoc(head + "\n", rest, b);
    LookupSkip(head, rest + b, key);
    if Lookup(b, key).Some? {
      ReplaceSkip(head, rest + b, key, line);
      ConcatAssoc(head + "\n", rest, Replace(b, key, line));
    }
  }

  /** A line of key lies between whole lines that are not of key and the rest of the text. */
  ghost predicate MatchSplit(x: string, key: string, front: string, tail: string, line: string) {
    && Lookup(x, key).Some?
    && x == front + (MatchedLine(x, key) + tail)
    && (front == "" || front[|front| - 1] == '\n') && Lookup(front, key).None?
    && (tail == "" || tail[0] == '\n')
    && Replace(x, key, line) == front + (line + tail)
  }

  lemma {:induction false} SplitAtMatch(x: string, key: string, line: string) returns (front: string, tail: string)
    requires Lookup(x, key).Some? && '\n' !in key
    ensures MatchSplit(x, key, front, tail, line)
    decreases |x|
  {
    if Start(key) <= x {
      front, tail := "", x[Eol(x)..];
      SplitHere(x, key, line);
    } else {
      var head, rest := x[..Eol(x)], x[Eol(x) + 1..];
      var front';
      front', tail := SplitAtMatch(rest, key, line);
      front := (head + "\n") + front';
      SplitLater(x, key, line, front', tail);
    }
  }

  lemma {:induction false} SplitHere(x: string, key: string, line: string)
    requires Start(key) <= x && '\n' !in key
    ensures MatchSplit(x, key, "", x[Eol(x)..], line)
  {
    StartWithinLine(x, key);
    ReplaceHere(x, key, line);
    assert "" + (line + x[Eol(x)..]) == line + x[Eol(x)..];
    assert MatchedLine(x, key) == x[..Eol(x)];
    assert x == "" + (x[..Eol(x)] + x[Eol(x)..]);
  }

  lemma {:induction false} SplitLater(x: string, key: string, line: string, front: string, tail: string)
    requires Lookup(x, key).Some? && '\n' !in key && !(Start(key) <= x)
    requires MatchSplit(x[Eol(x) + 1..], key, front, tail, line)
    ensures MatchSplit(x, key, (x[..Eol(x)] + "\n") + front, tail, line)
  {
    var head, rest := x[..Eol(x)], x[Eol(x) + 1..];
    EolIsFirst(x);
    StartWithinLine(x, key);
    SplitAtEol(x);
    LookupSkip(head, front, key);
    ReplaceSkip(head, rest, key, line);
    ConcatAssoc(head + "\n", front, MatchedLine(x, key) + tail);
    ConcatAssoc(head + "\n", front, line + tail);
  }

  /** What comes after whole lines does not matter for a key found in them. */
  lemma {:induction false} UpsertWithin(a: string, b: string, key: string, value: string)
    requires Closed(a) && Lookup(a, key).Some? && GoodKey(key) && Upsert(a + b, key, value).Some?
    ensures Upsert(a, key, value).Some? && Upsert(a + b, key, value).value == Upsert(a, key, value).value + b
    ensures Lookup(a + b, key) == Lookup(a, key)
  {
    LookupWithin(a, b, key, "");
    if Upsert(a, key, value).Some? {
      LookupWithin(a, b, key, Expand(Start(key) + value, MatchedLine(a, key)).value);
    }
  }

  lemma {:induction false} LookupWithin(a: string, b: string, key: string, line: string)
    requires Closed(a) && Lookup(a, key).Some? && GoodKey(key)
    ensures Lookup(a + b, key) == Lookup(a, key)
    ensures Replace(a + b, key, line) == Replace(a, key, line) + b
    decreases |a|
  {
    EolOfClosed(a);
    if Start(key) <= a {
      WithinHere(a, b, key, line);
    } else {
      var head, rest := a[..Eol(a)], a[Eol(a) + 1..];
      EolIsFirst(a);
      StartWithinLine(a, key);
      SplitAtEol(a);
      LookupWithin(rest, b, key, line);
      ConcatAssoc(head + "\n", rest, b);
      LookupSkip(head, rest + b, key);
      ReplaceSkip(head, rest + b, key, line);
      ReplaceSkip(head, rest, key, line);
      ConcatAssoc(head + "\n", Replace(rest, key, line), b);
    }
  }

  lemma {:induction false} WithinHere(a: string, b: string, key: string, line: string)
    requires Eol(a) < |a| && Start(key) <= a && GoodKey(key)
    ensures Lookup(a + b, key) == Lookup(a, key)
    ensures Replace(a + b, key, line) == Replace(a, key, line) + b
  {
    var s := a[|key| + 1..];
    StartWithinLine(a, key);
    assert (a + b)[|key| + 1..] == s + b;
    EolBefore(s, b);
    assert (s + b)[..Eol(s)] == s[..Eol(s)];
    ReplaceHere(a, key, line);
    ReplaceHere(a + b, key, line);
    EolBefore(a, b);
    assert (a + b)[Eol(a)..] == a[Eol(a)..] + b;
    ConcatAssoc(line, a[Eol(a)..], b);
  }

  /** A lost value is not what the next reader gets. */
  lemma {:induction false} LostReads(x: string, key: string, value: string)
    requires Lost(x, key, value) && GoodKey(key)
    ensures GetValue(ReadText(x), key) != value
  {
    var a, w :| LostAt(x, a, w, key, value);
    ReadAfterPlain(a, Start(key) + w);
    ReadAfterPlain(Start(key), w);
    LookupAcross(a, Start(key) + ReadText(w), key, "");
    LookupHere(key, ReadText(w));
    ReadFirstLine(w);
  }

  lemma {:induction false} FrontOfSplit(x: string, key: string, front: string, tail: string, line: string)
    requires MatchSplit(x, key, front, tail, line) && '\r' !in x
    ensures Closed(front)
  {
    assert forall c :: c in front ==> c in x;
  }

  /** A value that is not safe as a template is lost where it replaces another. */
  lemma {:induction false} UnsafeIsLostAt(x: string, b: string, key: string, value: string)
    requires GoodKey(key) && '\r' !in x && Lookup(x, key).Some? && !TemplateSafe(value)
    requires Upsert(x, key, value).Some? && (b == "" || (x != "" && x[|x| - 1] == '\n'))
    ensures Lost(Upsert(x, key, value).value + b, key, value)
  {
    var matched := MatchedLine(x, key);
    MatchIsKeyed(x, key);
    ExpandKeyed(key, value, matched);
    UnsafeDiffers(value, matched);
    var e := Expand(value, matched).value;
    var front, tail := SplitAtMatch(x, key, Start(key) + e);
    FrontOfSplit(x, key, front, tail, Start(key) + e);
    TailOfSplit(x, key, front, tail, Start(key) + e, b);
    LineOfConcat(e, tail + b);
    assert LineOf(e) <= e;
    Regrouped(front, Start(key), e, tail, b);
    assert LostAt(Upsert(x, key, value).value + b, front, e + (tail + b), key, value);
  }

  lemma {:induction false} Regrouped(a: string, k: string, e: string, tail: string, b: string)
    ensures (a + ((k + e) + tail)) + b == a + (k + (e + (tail + b)))
  {
  }

  lemma {:induction false} TailOfSplit(x: string, key: string, front: string, tail: string, line: string, b: string)
    requires MatchSplit(x, key, front, tail, line) && GoodKey(key) && (b == "" || (x != "" && x[|x| - 1] == '\n'))
    ensures tail + b == "" || (tail + b)[0] == '\n'
  {
    var m := MatchedLine(x, key);
    LookupIsOneLine(x, key);
    assert m[|m| - 1] in m;
    if tail == "" {
      assert m + tail == m;
      assert x[|x| - 1] == m[|m| - 1];
    }
  }

  lemma {:induction false} LineOfLonger(w: string, y: string)
    requires y == "" || y[0] == '\n' || (w != "" && w[|w| - 1] == '\n')
    ensures LineOf(w + y) == LineOf(w)
  {
    if y == "" || y[0] == '\n' {
      LineOfConcat(w, y);
    } else {
      EolOfClosed(w);
      LineOfTo(w, y, Eol(w));
    }
  }

  lemma {:induction false} LineOfTo(w: string, y: string, n: nat)
    requires n < |w| && w[n] == '\n'
    ensures LineOf(w + y) == LineOf(w) == LineOf(w[..n + 1] + y)
  {
    var head, rest := w[..n], w[n..];
    assert w == head + rest && w + y == head + (rest + y);
    assert w[..n + 1] + y == head + ("\n" + y);
    LineOfConcat(head, rest);
    LineOfConcat(head, rest + y);
    LineOfConcat(head, "\n" + y);
  }

  /** A lost value stays lost, or another one is lost, when one more entry is written. */
  lemma {:induction false} LostStep(x: string, key: string, value: string, e: Entry)
    requires Lost(x, key, value) && GoodKey(key) && GoodKey(e.key) && e.key != key && OneLine(e.value)
    requires Upsert(x, e.key, e.value).Some?
    ensures
      || Lost(Upsert(x, e.key, e.value).value, key, value)
      || (Lost(Upsert(x, e.key, e.value).value, e.key, e.value) && !TemplateSafe(e.value))
  {
    var a, w :| LostAt(x, a, w, key, value);
    var b := Start(key) + w;
    if Lookup(a, e.key).Some? {
      UpsertWithin(a, b, e.key, e.value);
      if TemplateSafe(e.value) {
        FrontStaysClosed(a, e, key);
        assert LostAt(Upsert(x, e.key, e.value).value, Upsert(a, e.key, e.value).value, w, key, value);
      } else {
        UnsafeIsLostAt(a, b, e.key, e.value);
      }
    } else {
      LostBehind(x, a, w, key, value, e);
    }
  }

  lemma {:induction false} FrontStaysClosed(a: string, e: Entry, key: string)
    requires Closed(a) && Lookup(a, e.key).Some? && GoodKey(e.key) && OneLine(e.value) && TemplateSafe(e.value)
    requires Lookup(a, key).None? && GoodKey(key)
    ensures Upsert(a, e.key, e.value).Some?
    ensures Closed(Upsert(a, e.key, e.value).value) && Lookup(Upsert(a, e.key, e.value).value, key).None?
  {
    UpsertFrame(a, e.key, e.value);
    UpsertChars(a, e.key, e.value);
    LastBreakStays(a, e);
  }

  lemma {:induction false} LastBreakStays(a: string, e: Entry)
    requires Closed(a) && Lookup(a, e.key).Some? && GoodKey(e.key) && Upsert(a, e.key, e.value).Some?
    ensures var after := Upsert(a, e.key, e.value).value; after != "" && after[|after| - 1] == '\n'
  {
    hide Lookup;
    hide Replace;
    var line := Expand(Start(e.key) + e.value, MatchedLine(a, e.key)).value;
    var front, tail := SplitAtMatch(a, e.key, line);
    TailOfSplit(a, e.key, front, tail, line, "x");
    var after := front + (line + tail);
    assert tail != "";
    assert after[|after| - 1] == tail[|tail| - 1] && a[|a| - 1] == tail[|tail| - 1];
  }

  /** An entry written behind the lost line leaves that line alone. */
  lemma {:induction false} LostBehind(x: string, a: string, w: string, key: string, value: string, e: Entry)
    requires LostAt(x, a, w, key, value) && GoodKey(key) && GoodKey(e.key) && e.key != key
    requires Lookup(a, e.key).None? && Upsert(x, e.key, e.value).Some?
    ensures Lost(Upsert(x, e.key, e.value).value, key, value)
  {
    var b := Start(key) + w;
    if Lookup(b, e.key).Some? {
      LookupAcross(a, b, e.key, "");
      var line := Expand(Start(e.key) + e.value, MatchedLine(x, e.key)).value;
      LookupAcross(a, b, e.key, line);
      var w' := ReplaceBehind(key, w, e.key, line);
      assert LostAt(Upsert(x, e.key, e.value).value, a, w', key, value);
    } else {
      LookupAcross(a, b, e.key, "");
      var w' := AppendBehind(a, key, w, Start(e.key) + e.value);
      assert LostAt(Upsert(x, e.key, e.value).value, a, w', key, value);
    }
  }

  lemma {:induction false} ReplaceBehind(key: string, w: string, other: string, line: string) returns (w': string)
    requires GoodKey(key) && GoodKey(other) && other != key && Lookup(Start(key) + w, other).Some?
    ensures Replace(Start(key) + w, other, line) == Start(key) + w' && LineOf(w') == LineOf(w)
  {
    var rest := PastFirstLine(key, w, other, line);
    w' := w[..Eol(w) + 1] + rest;
    hide *;
    CutBehind(Start(key), w, Eol(w), rest);
    LineOfTo(w, rest, Eol(w));
  }

  /** The line of a key is not the line of another key, so the other key is replaced behind it. */
  lemma {:induction false} PastFirstLine(key: string, w: string, other: string, line: string) returns (rest: string)
    requires GoodKey(key) && GoodKey(other) && other != key && Lookup(Start(key) + w, other).Some?
    ensures Eol(w) < |w|
    ensures Replace(Start(key) + w, other, line) == (Start(key) + w)[..|Start(key)| + Eol(w) + 1] + rest
  {
    var b := Start(key) + w;
    KeysDontOverlap(b, key, other);
    StartThenLine(key, w);
    hide Start;
    hide LineOf;
    rest := Replace(b[Eol(b) + 1..], other, line);
  }

  lemma {:induction false} StartThenLine(key: string, w: string)
    requires '\n' !in key
    ensures Eol(Start(key) + w) == |Start(key)| + Eol(w)
  {
    var b := Start(key) + w;
    StartWithinLine(b, key);
    assert b[|key| + 1..] == w;
  }

  lemma {:induction false} CutBehind(k: string, w: string, n: nat, rest: string)
    requires n < |w|
    ensures (k + w)[..|k| + n + 1] + rest == k + (w[..n + 1] + rest)
  {
    assert (k + w)[..|k| + n + 1] == k + w[..n + 1];
    ConcatAssoc(k, w[..n + 1], rest);
  }

  lemma {:induction false} AppendBehind(a: string, key: string, w: string, line: string) returns (w': string)
    requires Closed(a)
    ensures Append(a + (Start(key) + w), line) == a + (Start(key) + w') && LineOf(w') == LineOf(w)
  {
    var y := line + "\n";
    AppendConcat(a, Start(key) + w, line);
    AppendHere(Start(key), w, y);
    if w != "" && w[|w| - 1] == '\n' {
      w' := w + y;
      LineOfLonger(w, y);
    } else {
      w' := w + ("\n" + y);
      LineOfLonger(w, "\n" + y);
    }
  }

  lemma {:induction false} AppendHere(k: string, w: string, y: string)
    requires k != "" && k[|k| - 1] != '\n'
    ensures Terminate(k + w) + y == k + if w != "" && w[|w| - 1] == '\n' then w + y else w + ("\n" + y)
  {
    LastOfConcat(k, w);
    if w != "" && w[|w| - 1] == '\n' {
      ConcatAssoc(k, w, y);
    } else {
      ConcatAssoc(k + w, "\n", y);
      ConcatAssoc(k, w, "\n" + y);
    }
  }

  lemma {:induction false} LastOfConcat(k: string, w: string)
    requires k != ""
    ensures k + w != "" && (k + w)[|k + w| - 1] == if w == "" then k[|k| - 1] else w[|w| - 1]
  {
  }

  lemma {:induction false} AppendConcat(a: string, b: string, line: string)
    requires Closed(a) && b != ""
    ensures Append(a + b, line) == a + Append(b, line)
  {
    if a == "" {
      assert a + b == b && a + Append(b, line) == Append(b, line);
    } else {
      TerminateConcat(a, b);
      ConcatAssoc(a, Terminate(b), line + "\n");
    }
  }

  /** Once a value is lost, it or a later one that is not safe as a template does not come back. */
  lemma {:induction false} LostStays(x: string, key: string, value: string, d: seq<Entry>)
    requires Lost(x, key, value) && GoodKey(key) && GoodKeys(d) && Distinct(d) && AllOneLine(d)
    requires forall e :: e in d ==> e.key != key
    requires UpsertAll(x, d).Some?
    ensures GetValue(ReadText(UpsertAll(x, d).value), key) != value || !RiskyReadBack(UpsertAll(x, d).value, d)
    decreases |d|
  {
    if d == [] {
      LostReads(x, key, value);
    } else {
      var e, rest := d[0], d[1..];
      LostStep(x, key, value, e);
      var x' := Upsert(x, e.key, e.value).value;
      forall r | r in rest ensures r in d && r.key != e.key {
        RestDiffers(d, r);
      }
      if Lost(x', key, value) {
        LostStays(x', key, value, rest);
      } else {
        LostStays(x', e.key, e.value, rest);
        assert e in d;
      }
    }
  }

  lemma {:induction false} ReadBackIsOneLine(raw: string, d: seq<Entry>)
    requires RiskyReadBack(raw, d)
    ensures AllOneLine(d)
  {
    forall e | e in d ensures OneLine(e.value) {
      if Lookup(ReadText(raw), e.key).Some? {
        LookupIsOneLine(ReadText(raw), e.key);
        ReadHasNoReturn(raw);
      }
    }
  }

  lemma {:induction false} ReadBackMeansStorable(t: string, d: seq<Entry>)
    requires '\r' !in t && Distinct(d) && GoodKeys(d) && AllOneLine(d)
    requires UpsertAll(t, d).Some? && RiskyReadBack(UpsertAll(t, d).value, d)
    ensures AllStorable(t, d)
    decreases |d|
  {
    if d == [] {
    } else {
      var e, rest := d[0], d[1..];
      assert e in d;
      var t' := Upsert(t, e.key, e.value).value;
      forall r | r in rest ensures r in d && r.key != e.key {
        RestDiffers(d, r);
      }
      if Storable(t, e.key, e.value) {
        UpsertFrame(t, e.key, e.value);
        UpsertChars(t, e.key, e.value);
        ReadBackMeansStorable(t', rest);
        StorableBefore(t, t', d);
      } else {
        UnsafeIsLostAt(t, "", e.key, e.value);
        assert t' + "" == t';
        LostStays(t', e.key, e.value, rest);
      }
    }
  }

  lemma {:induction false} StorableBefore(t: string, t': string, d: seq<Entry>)
    requires d != [] && Distinct(d) && GoodKeys(d) && Storable(t, d[0].key, d[0].value) && AllStorable(t', d[1..])
    requires forall other :: GoodKey(other) && other != d[0].key ==> Lookup(t', other) == Lookup(t, other)
    ensures AllStorable(t, d)
  {
    forall e | e in d ensures Storable(t, e.key, e.value) {
      if e in d[1..] {
        RestDiffers(d, e);
        assert Storable(t', e.key, e.value);
      }
    }
  }

  /** The committed text shows for every key what the overlay t, d showed. */
  ghost predicate KeepsView(t: string, d: seq<Entry>, raw: string) {
    forall key :: GoodKey(key) ==> GetValue(ReadText(raw), key) == Overlay(t, d, key)
  }

  lemma KeptMeansReadBack(t: string, d: seq<Entry>, raw: string)
    requires Distinct(d) && GoodKeys(d) && KeepsView(t, d, raw)
    ensures AllReadBack(raw, d)
  {
    forall e | e in d ensures GetValue(ReadText(raw), e.key) == e.value {
      var i :| 0 <= i < |d| && d[i] == e;
      AtDistinct(d, i);
    }
  }

  /** All staged values come back from the committed file exactly when each of them can be stored
      in the file as it was; and then the commit changes what is read for no key. It is enough
      to look at the values that cannot be stored everywhere. */
  lemma CommitIffStorable(t: string, d: seq<Entry>)
    requires '\r' !in t && Distinct(d) && GoodKeys(d)
    ensures UpsertAll(t, d).Some? && AllReadBack(UpsertAll(t, d).value, d) <==> AllStorable(t, d)
    ensures UpsertAll(t, d).Some? && KeepsView(t, d, UpsertAll(t, d).value) <==> AllStorable(t, d)
    ensures UpsertAll(t, d).Some? && RiskyReadBack(UpsertAll(t, d).value, d) <==> AllStorable(t, d)
  {
    CommitReadsOverlay(t, d);
    if UpsertAll(t, d).Some? {
      var raw := UpsertAll(t, d).value;
      if KeepsView(t, d, raw) {
        KeptMeansReadBack(t, d, raw);
      }
      if RiskyReadBack(raw, d) {
        ReadBackIsOneLine(raw, d);
        ReadBackMeansStorable(t, d);
      }
    }
  }

  /** The order in which values were staged makes no difference to what is read afterwards. */
  lemma OrderIsIrrelevant(t: string, d: seq<Entry>, other: seq<Entry>, key: string)
    requires '\r' !in t && Distinct(d) && Distinct(other) && GoodKeys(d) && AllStorable(t, d) && GoodKey(key)
    requires forall e :: e in d <==> e in other
    ensures UpsertAll(t, d).Some? && UpsertAll(t, other).Some?
    ensures GetValue(ReadText(UpsertAll(t, d).value), key) == GetValue(ReadText(UpsertAll(t, other).value), key)
  {
    CommitIffStorable(t, d);
    CommitIffStorable(t, other);
    SameEntriesShowSame(d, other, key);
    SameEntriesShowSame(other, d, key);
  }

  lemma SameEntriesShowSame(d: seq<Entry>, other: seq<Entry>, key: string)
    requires Distinct(other) && forall e :: e in d ==> e in other
    ensures Has(d, key) ==> Has(other, key) && At(other, key) == At(d, key)
  {
    if Has(d, key) {
      var e := d[IndexOf(d, key)];
      assert e in d;
      var i :| 0 <= i < |other| && other[i] == e;
      AtDistinct(other, i);
    }
  }

  // ---------------------------------------------------------------------------
  // Which lines a commit changes.

  lemma {:induction false} OtherLookups(t: string, d: seq<Entry>, key: string)
    requires Distinct(d) && GoodKeys(d) && AllStorable(t, d) && GoodKey(key)
    requires forall e :: e in d ==> e.key != key
    ensures UpsertAll(t, d).Some? && Lookup(UpsertAll(t, d).value, key) == Lookup(t, key)
    decreases |d|
  {
    if d == [] {
    } else {
      var e, rest := d[0], d[1..];
      assert e in d;
      UpsertFrame(t, e.key, e.value);
      var t' := Upsert(t, e.key, e.value).value;
      forall r | r in rest ensures r in d && r.key != e.key && GoodKey(r.key) && Storable(t', r.key, r.value) {
        RestDiffers(d, r);
      }
      OtherLookups(t', rest, key);
    }
  }

  function LineFor(e: Entry): string {
    Start(e.key) + e.value
  }

  /** The lines for entries whose keys have none yet, in order. */
  function NewLines(lines: seq<string>, d: seq<Entry>): seq<string> {
    if d == [] then []
    else
      var front, e := NewLines(lines, d[..|d| - 1]), d[|d| - 1];
      if FindLine(lines, e.key) == |lines| then front + [LineFor(e)] else front
  }

  /** after has the lines of before, the first of each staged key replaced, followed by the new ones. */
  ghost predicate LinesCommitted(before: seq<string>, d: seq<Entry>, after: seq<string>) {
    && |after| >= |before| && after[|before|..] == NewLines(before, d)
    && (forall i :: 0 <= i < |before| ==> LineCommitted(before, d, i, after[i]))
  }

  ghost predicate LineCommitted(before: seq<string>, d: seq<Entry>, i: int, line: string)
    requires 0 <= i < |before|
  {
    && ((forall e :: e in d ==> FindLine(before, e.key) != i) ==> line == before[i])
    && (forall e :: e in d && FindLine(before, e.key) == i ==> line == LineFor(e))
  }

  lemma {:induction false} NewLinesAreOf(before: seq<string>, d: seq<Entry>, line: string)
    requires line in NewLines(before, d)
    ensures exists e :: e in d && line == LineFor(e)
  {
    var front, last := d[..|d| - 1], d[|d| - 1];
    if line in NewLines(before, front) {
      NewLinesAreOf(before, front, line);
      var e :| e in front && line == LineFor(e);
      assert e in d;
    } else {
      assert last in d && line == LineFor(last);
    }
  }

  /** A committed line is of another key when the old one was, or when it is for a staged one. */
  lemma CommittedForeign(before: seq<string>, d: seq<Entry>, after: seq<string>, j: nat, key: string)
    requires LinesCommitted(before, d, after) && GoodKeys(d) && GoodKey(key) && j < |after|
    requires forall e :: e in d ==> e.key != key
    requires j < |before| ==> !(Start(key) <= before[j])
    ensures !(Start(key) <= after[j])
  {
    if j >= |before| {
      assert after[j] == after[|before|..][j - |before|];
      NewLinesAreOf(before, d, after[j]);
      var e :| e in d && after[j] == LineFor(e);
      KeysDontOverlap(after[j], e.key, key);
    } else {
      assert LineCommitted(before, d, j, after[j]);
      if exists e :: e in d && FindLine(before, e.key) == j {
        var e :| e in d && FindLine(before, e.key) == j;
        KeysDontOverlap(after[j], e.key, key);
      }
    }
  }

  /** The first line of a key not staged is where it was, and is as it was. */
  lemma SamePlace(before: seq<string>, d: seq<Entry>, after: seq<string>, key: string)
    requires LinesCommitted(before, d, after) && GoodKeys(d) && GoodKey(key)
    requires forall e :: e in d ==> e.key != key
    ensures FindLine(after, key) == if FindLine(before, key) < |before| then FindLine(before, key) else |after|
  {
    hide LinesCommitted;
    hide Start;
    AtLeastAsLong(before, d, after);
    var i := FindLine(before, key);
    forall j: nat | j < |after| && j < i ensures !(Start(key) <= after[j]) {
      CommittedForeign(before, d, after, j, key);
    }
    if i < |before| {
      FoundLineStays(before, d, after, key);
      FindLineIs(after, key, i);
    } else {
      forall j: nat | j < |after| ensures !(Start(key) <= after[j]) {
        CommittedForeign(before, d, after, j, key);
      }
    }
  }

  lemma AtLeastAsLong(before: seq<string>, d: seq<Entry>, after: seq<string>)
    requires LinesCommitted(before, d, after)
    ensures |before| <= |after|
  {
  }

  lemma FoundLineStays(before: seq<string>, d: seq<Entry>, after: seq<string>, key: string)
    requires LinesCommitted(before, d, after) && GoodKeys(d) && GoodKey(key) && FindLine(before, key) < |before|
    requires forall e :: e in d ==> e.key != key
    ensures FindLine(before, key) < |after| && after[FindLine(before, key)] == before[FindLine(before, key)]
  {
    var i := FindLine(before, key);
    forall e | e in d ensures FindLine(before, e.key) != i {
      KeysDontOverlap(before[i], key, e.key);
    }
    assert LineCommitted(before, d, i, after[i]);
  }

  lemma OneMoreLine(before: seq<string>, d: seq<Entry>, e: Entry, lines: seq<string>)
    requires LinesCommitted(before, d, lines) && GoodKeys(d) && GoodKey(e.key)
    requires forall x :: x in d ==> x.key != e.key
    ensures LinesCommitted(before, d + [e], UpsertLine(lines, e.key, LineFor(e)))
  {
    SamePlace(before, d, lines, e.key);
    var i, after := FindLine(before, e.key), UpsertLine(lines, e.key, LineFor(e));
    assert (d + [e])[..|d|] == d;
    assert after[|before|..] == NewLines(before, d + [e]);
    forall j | 0 <= j < |before| ensures LineCommitted(before, d + [e], j, after[j]) {
      assert LineCommitted(before, d, j, lines[j]);
      if j == i {
        forall x | x in d ensures FindLine(before, x.key) != i {
          KeysDontOverlap(before[i], e.key, x.key);
        }
      }
    }
  }

  /** A commit of storable values replaces the first line of each staged key that has one and adds
      lines for the others at the end, in the order they were staged; every other line stays. */
  lemma {:induction false} CommitLines(t: string, d: seq<Entry>)
    requires Distinct(d) && GoodKeys(d) && AllStorable(t, d)
    ensures UpsertAll(t, d).Some? && LinesCommitted(Lines(t), d, Lines(UpsertAll(t, d).value))
    decreases |d|
  {
    if d == [] {
    } else {
      var front, e := d[..|d| - 1], d[|d| - 1];
      assert d == front + [e];
      forall x | x in front ensures x in d && x.key != e.key {
        var i :| 0 <= i < |front| && front[i] == x;
        assert d[i] == x;
      }
      assert e in d;
      CommitLines(t, front);
      OtherLookups(t, front, e.key);
      UpsertAllSnoc(t, front, e);
      var t' := UpsertAll(t, front).value;
      UpsertChangesOneLine(t', e.key, e.value);
      OneMoreLine(Lines(t), front, e, Lines(t'));
    }
  }
}
