/** Replacement templates of Python's re module, for a pattern without groups. The upsert of a
    line passes "KEY=value" as such a template, so a value is not always stored as given. */
module RegexTemplate {
  import opened Collections

  const BACKSLASH: char := '\\'

  predicate Digit(c: char) { '0' <= c <= '9' }

  predicate Octal(c: char) { '0' <= c <= '7' }

  predicate Letter(c: char) { 'a' <= c <= 'z' || 'A' <= c <= 'Z' }

  function DigitValue(c: char): (r: nat)
    requires Digit(c)
    ensures r < 10 && (Octal(c) ==> r < 8)
  {
    c as int - '0' as int
  }

  /** How far the octal escape starting at t reaches: a zero and up to two more octal digits. */
  function ZeroEscapeEnd(t: string): (n: nat)
    requires |t| >= 2 && t[0] == BACKSLASH && t[1] == '0'
    ensures 2 <= n <= |t| && n <= 4 && forall i :: 1 <= i < n ==> Octal(t[i])
  {
    if |t| > 2 && Octal(t[2]) then (if |t| > 3 && Octal(t[3]) then 4 else 3) else 2
  }

  /** The value of one to three octal digits below 256. */
  function OctalValue(digits: string): (r: nat)
    requires 1 <= |digits| <= 3 && (|digits| == 3 ==> digits[0] <= '3')
    requires Octal(digits[0]) && (|digits| > 1 ==> Octal(digits[1])) && (|digits| > 2 ==> Octal(digits[2]))
    ensures r < 256
  {
    var d := DigitValue(digits[0]);
    if |digits| == 1 then d
    else if |digits| == 2 then 8 * d + DigitValue(digits[1])
    else 64 * d + 8 * DigitValue(digits[1]) + DigitValue(digits[2])
  }

  function Zeros(t: string): (n: nat)
    ensures n <= |t|
  {
    if t != "" && t[0] == '0' then 1 + Zeros(t[1..]) else 0
  }

  /** The end of a reference to the whole match at the start of t: backslash, g, then zeros
      between angle brackets. 0 when there is none. */
  function WholeMatchEnd(t: string): (n: nat)
    ensures n <= |t| && (n > 0 ==> n > 2)
  {
    if |t| > 2 && t[..3] == "\\g<" then
      var z := Zeros(t[3..]);
      if z > 0 && 3 + z < |t| && t[3 + z] == '>' then 4 + z else 0
    else 0
  }

  function ControlEscape(c: char): (r: Option<char>)
    ensures r.Some? ==> r.value < ' ' && Letter(c)
  {
    match c
    case 'a' => Some(7 as char)
    case 'b' => Some(8 as char)
    case 'f' => Some(12 as char)
    case 'n' => Some('\n')
    case 'r' => Some('\r')
    case 't' => Some('\t')
    case 'v' => Some(11 as char)
    case _ => None
  }

  function Prepend(a: string, rest: Option<string>): Option<string> {
    if rest.Some? then Some(a + rest.value) else None
  }

  /** Expands a template against the matched text; None when the template is rejected. */
  function Expand(t: string, matched: string): Option<string>
    decreases |t|
  {
    if t == "" then Some("")
    else if t[0] != BACKSLASH then Prepend(t[..1], Expand(t[1..], matched))
    else if |t| == 1 then None
    else
      var c := t[1];
      if c == 'g' then
        var n := WholeMatchEnd(t);
        if n == 0 then None else Prepend(matched, Expand(t[n..], matched))
      else if c == '0' then
        var n := ZeroEscapeEnd(t);
        Prepend([OctalValue(t[1..n]) as char], Expand(t[n..], matched))
      else if Digit(c) then
        if |t| > 3 && Octal(c) && Octal(t[2]) && Octal(t[3]) && c <= '3' then
          Prepend([OctalValue(t[1..4]) as char], Expand(t[4..], matched))
        else None
      else if c == BACKSLASH then Prepend("\\", Expand(t[2..], matched))
      else if ControlEscape(c).Some? then Prepend([ControlEscape(c).value], Expand(t[2..], matched))
      else if Letter(c) then None
      else Prepend(t[..2], Expand(t[2..], matched))
  }

  /** Every backslash comes before a character that gives it no special meaning. */
  predicate TemplateSafe(t: string)
    decreases |t|
  {
    if t == "" then true
    else if t[0] != BACKSLASH then TemplateSafe(t[1..])
    else |t| > 1 && !Letter(t[1]) && !Digit(t[1]) && t[1] != BACKSLASH && TemplateSafe(t[2..])
  }

  lemma {:induction false} SafeExpands(t: string, matched: string)
    requires TemplateSafe(t)
    ensures Expand(t, matched) == Some(t)
    decreases |t|
  {
    if t == "" {
    } else {
      var n := if t[0] == BACKSLASH then 2 else 1;
      SafeExpands(t[n..], matched);
      assert t == t[..n] + t[n..];
    }
  }

  lemma {:induction false} PlainIsSafe(t: string)
    requires BACKSLASH !in t
    ensures TemplateSafe(t)
  {
    if t == "" {
    } else {
      PlainIsSafe(t[1..]);
    }
  }

  lemma {:induction false} ExpandAfterPlain(a: string, t: string, matched: string)
    requires BACKSLASH !in a
    ensures Expand(a + t, matched) == Prepend(a, Expand(t, matched))
  {
    if a == "" {
      assert a + t == t;
      assert Expand(t, matched).Some? ==> a + Expand(t, matched).value == Expand(t, matched).value;
    } else {
      ExpandAfterPlain(a[1..], t, matched);
      assert (a + t)[1..] == a[1..] + t && (a + t)[..1] == a[..1];
      assert a[0] in a;
      if Expand(t, matched).Some? {
        assert a[..1] + (a[1..] + Expand(t, matched).value) == a + Expand(t, matched).value;
      }
    }
  }

  /** The matched text KEY=old: an equals sign after at least one character, none of the
      characters before it a backslash. */
  ghost predicate KeyedMatch(matched: string) {
    exists i :: EqualsAt(matched, i)
  }

  ghost predicate EqualsAt(matched: string, i: int) {
    1 <= i < |matched| && matched[i] == '=' && BACKSLASH !in matched[..i]
  }

  /** Characters an unread part of an escape can be made of. */
  ghost predicate EscapeRest(p: string) {
    forall c :: c in p ==> Digit(c) || c == BACKSLASH
  }

  /** Once the expansion lags behind the template by the rest of an escape it never catches up. */
  lemma {:induction false} NeverCatchesUp(p: string, t: string, matched: string)
    requires p != "" && EscapeRest(p) && KeyedMatch(matched)
    requires Expand(t, matched).Some?
    ensures !(p + t <= Expand(t, matched).value)
    decreases |t|
  {
    var e := Expand(t, matched).value;
    if t == "" || e == "" || e[0] != p[0] {
      assert (p + t)[0] == p[0];
    } else {
      assert p[0] in p;
      if t[0] != BACKSLASH {
        LagStep(p, t, 1, e, matched);
      } else if t[1] == 'g' {
        MatchDiffers(p, t, matched, e);
      } else if t[1] == '0' {
        LagStep(p, t, ZeroEscapeEnd(t), e, matched);
      } else if Digit(t[1]) {
        LagStep(p, t, 4, e, matched);
      } else if t[1] == BACKSLASH {
        LagStep(p, t, 2, e, matched);
      } else {
        assert (p + t)[1] == if |p| > 1 then p[1] else t[0];
        assert |p| > 1 ==> p[1] in p;
      }
    }
  }

  /** One character of the expansion stands for the first n of the template. */
  lemma {:induction false} LagStep(p: string, t: string, n: nat, e: string, matched: string)
    requires p != "" && EscapeRest(p) && KeyedMatch(matched)
    requires 1 <= n <= |t| && EscapeRest(t[..n])
    requires e != "" && Expand(t[n..], matched) == Some(e[1..])
    ensures !(p + t <= e)
    decreases |t|, 0
  {
    Regroup(p, t, n);
    NeverCatchesUp(p[1..] + t[..n], t[n..], matched);
  }

  lemma {:induction false} Regroup(p: string, t: string, n: nat)
    requires p != "" && n <= |t|
    ensures (p + t)[1..] == (p[1..] + t[..n]) + t[n..]
  {
  }

  lemma {:induction false} MatchDiffers(p: string, t: string, matched: string, e: string)
    requires p != "" && EscapeRest(p) && KeyedMatch(matched)
    requires t != "" && t[0] == BACKSLASH && matched <= e
    ensures !(p + t <= e)
  {
    var i :| EqualsAt(matched, i);
    if i < |p| {
      assert (p + t)[i] == p[i] && p[i] in p;
    } else {
      assert (p + t)[|p|] == BACKSLASH;
      assert |p| < i ==> matched[|p|] in matched[..i];
    }
  }

  /** An unsafe template is rejected or expands to a text that does not begin with it. */
  lemma {:induction false} UnsafeDiffers(t: string, matched: string)
    requires !TemplateSafe(t) && KeyedMatch(matched) && Expand(t, matched).Some?
    ensures !(t <= Expand(t, matched).value)
    decreases |t|
  {
    var e := Expand(t, matched).value;
    if t[0] != BACKSLASH {
      UnsafeDiffers(t[1..], matched);
      assert e[1..] == Expand(t[1..], matched).value;
    } else if t[1] == 'g' {
      var i :| EqualsAt(matched, i);
      assert matched[0] in matched[..i];
    } else if t[1] == '0' {
      Lag(t, ZeroEscapeEnd(t), e, matched);
    } else if Digit(t[1]) {
      Lag(t, 4, e, matched);
    } else if t[1] == BACKSLASH {
      Lag(t, 2, e, matched);
    } else if ControlEscape(t[1]).None? {
      UnsafeDiffers(t[2..], matched);
      assert e[2..] == Expand(t[2..], matched).value;
    }
  }

  lemma {:induction false} Lag(t: string, n: nat, e: string, matched: string)
    requires 2 <= n <= |t| && EscapeRest(t[1..n]) && KeyedMatch(matched)
    requires e != "" && Expand(t[n..], matched) == Some(e[1..])
    ensures !(t <= e)
  {
    assert t[1..n] + t[n..] == t[1..];
    NeverCatchesUp(t[1..n], t[n..], matched);
  }

  // ---------------------------------------------------------------------------
  // What templates expand to, piece by piece.

  lemma ExpandPair(c: char, out: char, rest: string, matched: string)
    requires ControlEscape(c) == Some(out) || (c == BACKSLASH && out == BACKSLASH)
    ensures Expand([BACKSLASH, c] + rest, matched) == Prepend([out], Expand(rest, matched))
  {
    assert ([BACKSLASH, c] + rest)[2..] == rest;
  }

  /** The control characters, by their codes, and the backslash. */
  lemma ExpandControl(rest: string, matched: string)
    ensures Expand("\\a" + rest, matched) == Prepend([7 as char], Expand(rest, matched))
    ensures Expand("\\b" + rest, matched) == Prepend([8 as char], Expand(rest, matched))
    ensures Expand("\\t" + rest, matched) == Prepend([9 as char], Expand(rest, matched))
    ensures Expand("\\n" + rest, matched) == Prepend([10 as char], Expand(rest, matched))
    ensures Expand("\\v" + rest, matched) == Prepend([11 as char], Expand(rest, matched))
    ensures Expand("\\f" + rest, matched) == Prepend([12 as char], Expand(rest, matched))
    ensures Expand("\\r" + rest, matched) == Prepend([13 as char], Expand(rest, matched))
    ensures Expand("\\\\" + rest, matched) == Prepend([92 as char], Expand(rest, matched))
  {
    hide Expand;
    ExpandPair('a', 7 as char, rest, matched);
    ExpandPair('b', 8 as char, rest, matched);
    ExpandPair('t', 9 as char, rest, matched);
    ExpandPair('n', 10 as char, rest, matched);
    ExpandPair('v', 11 as char, rest, matched);
    ExpandPair('f', 12 as char, rest, matched);
    ExpandPair('r', 13 as char, rest, matched);
    ExpandPair(BACKSLASH, BACKSLASH, rest, matched);
  }

  /** A backslash before any other ASCII letter, or at the end, is rejected; before a character that is
      neither letter nor digit nor backslash it stays. */
  lemma ExpandOther(c: char, rest: string, matched: string)
    ensures Letter(c) && c !in "abfgnrtv" ==> Expand([BACKSLASH, c] + rest, matched) == None
    ensures !Letter(c) && !Digit(c) && c != BACKSLASH ==>
      Expand([BACKSLASH, c] + rest, matched) == Prepend([BACKSLASH, c], Expand(rest, matched))
    ensures Expand("\\", matched) == None
  {
    var t := [BACKSLASH, c] + rest;
    assert t[2..] == rest && t[..2] == [BACKSLASH, c];
  }

  /** Group 0 stands for the whole match; every other number is rejected, three octal digits being a
      character and not a number. */
  lemma ExpandNumbered(x: char, y: char, z: char, rest: string, matched: string)
    requires Digit(x) && Digit(y) && Digit(z)
    ensures Expand("\\g<0>" + rest, matched) == Prepend(matched, Expand(rest, matched))
    ensures '1' <= x && !(x <= '3' && y <= '7' && z <= '7') ==> Expand([BACKSLASH, x, y, z] + rest, matched) == None
    ensures '0' <= x <= '3' && y <= '7' && z <= '7' ==>
      Expand([BACKSLASH, x, y, z] + rest, matched) ==
        Prepend([(64 * (x as int - 48) + 8 * (y as int - 48) + (z as int - 48)) as char], Expand(rest, matched))
  {
    WholeMatch(rest, matched);
    var t := [BACKSLASH, x, y, z] + rest;
    assert t[4..] == rest && t[1..4] == [x, y, z];
  }

  lemma WholeMatch(rest: string, matched: string)
    ensures Expand("\\g<0>" + rest, matched) == Prepend(matched, Expand(rest, matched))
  {
    var t := "\\g<0>" + rest;
    assert t[..3] == "\\g<" && t[3..] == "0>" + rest && t[4] == '>' && t[5..] == rest;
    assert ("0>" + rest)[1..] == ">" + rest;
    assert Zeros(t[3..]) == 1;
  }

  /** v with every backslash doubled. */
  function Escaped(v: string): string {
    if v == "" then "" else (if v[0] == BACKSLASH then "\\\\" else v[..1]) + Escaped(v[1..])
  }

  /** A value is stored as it is when its backslashes are doubled first. */
  lemma {:induction false} EscapedExpands(v: string, matched: string)
    ensures Expand(Escaped(v), matched) == Some(v)
  {
    if v == "" {
    } else {
      var rest := Escaped(v[1..]);
      EscapedExpands(v[1..], matched);
      assert v == v[..1] + v[1..];
      if v[0] == BACKSLASH {
        ExpandPair(BACKSLASH, BACKSLASH, rest, matched);
        assert v[..1] == [BACKSLASH];
      } else {
        assert (v[..1] + rest)[1..] == rest && (v[..1] + rest)[..1] == v[..1];
      }
    }
  }
}
