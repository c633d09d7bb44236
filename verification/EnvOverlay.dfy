/** Staged values laid over a .env text, and upserting all of them (the stage of EnvStore in
    scripts/configure_services.py). */
module EnvOverlay {
  import opened Collections
  import opened EnvText
  import opened EnvReadBack

  datatype Entry = Entry(key: string, value: string)

  // A dictionary in insertion order.

  function IndexOf(d: seq<Entry>, key: string): (i: nat)
    ensures i <= |d| && (i < |d| ==> d[i].key == key)
    ensures i == |d| ==> forall e :: e in d ==> e.key != key
  {
    if d == [] || d[0].key == key then 0 else 1 + IndexOf(d[1..], key)
  }

  predicate Has(d: seq<Entry>, key: string) {
    IndexOf(d, key) < |d|
  }

  function At(d: seq<Entry>, key: string): string
    requires Has(d, key)
  {
    d[IndexOf(d, key)].value
  }

  /** Assigning to a key keeps its place, or adds it at the end. */
  function Put(d: seq<Entry>, key: string, value: string): seq<Entry> {
    var i := IndexOf(d, key);
    if i < |d| then d[i := Entry(key, value)] else d + [Entry(key, value)]
  }

  lemma {:induction false} AbsentKey(d: seq<Entry>, key: string)
    requires forall e :: e in d ==> e.key != key
    ensures !Has(d, key)
  {
    if d == [] {
    } else {
      AbsentKey(d[1..], key);
    }
  }

  ghost predicate Distinct(d: seq<Entry>) {
    forall i, j :: 0 <= i < j < |d| ==> d[i].key != d[j].key
  }

  lemma {:induction false} PutAt(d: seq<Entry>, key: string, value: string, other: string)
    ensures var d' := Put(d, key, value);
      && (Has(d', other) <==> other == key || Has(d, other))
      && (Has(d', other) ==> At(d', other) == if other == key then value else At(d, other))
  {
    var d' := Put(d, key, value);
    if d != [] {
      PutAt(d[1..], key, value, other);
      if d[0].key != key {
        assert d' == [d[0]] + Put(d[1..], key, value);
        assert d'[1..] == Put(d[1..], key, value);
      } else {
        assert d'[1..] == d[1..];
      }
    }
  }

  function KeysOf(d: seq<Entry>): (r: seq<string>)
    ensures |r| == |d| && forall i :: 0 <= i < |d| ==> r[i] == d[i].key
  {
    seq(|d|, i requires 0 <= i < |d| => d[i].key)
  }

  /** A key keeps its place; a new one comes last. */
  lemma PutKeepsOrder(d: seq<Entry>, key: string, value: string)
    ensures KeysOf(Put(d, key, value)) == if key in KeysOf(d) then KeysOf(d) else KeysOf(d) + [key]
  {
    var i := IndexOf(d, key);
    if i < |d| {
      assert KeysOf(d)[i] == key;
    } else {
      forall j | 0 <= j < |d| ensures KeysOf(d)[j] != key {
        assert d[j] in d;
      }
    }
  }

  lemma PutDistinct(d: seq<Entry>, key: string, value: string)
    requires Distinct(d)
    ensures Distinct(Put(d, key, value))
  {
    if !Has(d, key) {
      forall i | 0 <= i < |d| ensures d[i].key != key {
        assert d[i] in d;
      }
    }
  }

  lemma {:induction false} PutElements(d: seq<Entry>, key: string, value: string)
    ensures forall e :: e in Put(d, key, value) ==> e in d || e == Entry(key, value)
  {
  }

  lemma {:induction false} AtDistinct(d: seq<Entry>, i: nat)
    requires Distinct(d) && i < |d|
    ensures Has(d, d[i].key) && At(d, d[i].key) == d[i].value
  {
    var j := IndexOf(d, d[i].key);
    assert d[i] in d;
  }

  // Upserting all entries into a text.

  function UpsertAll(t: string, d: seq<Entry>): Option<string>
    decreases |d|
  {
    if d == [] then Some(t)
    else
      match Upsert(t, d[0].key, d[0].value)
      case Some(t') => UpsertAll(t', d[1..])
      case None => None
  }

  ghost predicate GoodKeys(d: seq<Entry>) {
    forall e :: e in d ==> GoodKey(e.key)
  }

  /** Every entry can be stored in t. */
  ghost predicate AllStorable(t: string, d: seq<Entry>) {
    forall e :: e in d ==> Storable(t, e.key, e.value)
  }

  /** What a reader of t sees through the entries laid over it. */
  function Overlay(t: string, d: seq<Entry>, key: string): string {
    if Has(d, key) then At(d, key) else GetValue(t, key)
  }

  lemma {:induction false} UpsertAllSnoc(t: string, d: seq<Entry>, e: Entry)
    ensures UpsertAll(t, d + [e]) ==
      match UpsertAll(t, d) case Some(t') => Upsert(t', e.key, e.value) case None => None
    decreases |d|
  {
    if d == [] {
      assert d + [e] == [e];
      assert [e][1..] == [];
    } else {
      assert (d + [e])[1..] == d[1..] + [e];
      if Upsert(t, d[0].key, d[0].value).Some? {
        UpsertAllSnoc(Upsert(t, d[0].key, d[0].value).value, d[1..], e);
      }
    }
  }

  lemma UpsertAllNext(t: string, d: seq<Entry>, i: nat)
    requires i < |d| && UpsertAll(t, d[..i]).Some?
    ensures UpsertAll(t, d[..i + 1]) == Upsert(UpsertAll(t, d[..i]).value, d[i].key, d[i].value)
  {
    SplitAround(d, i);
    UpsertAllSnoc(t, d[..i], d[i]);
  }

  /** Storable entries all get written: afterwards the text reads for every key what the overlay
      showed before, whatever the order of the entries. */
  lemma {:induction false} UpsertAllReadsOverlay(t: string, d: seq<Entry>)
    requires '\r' !in t && Distinct(d) && GoodKeys(d) && AllStorable(t, d)
    ensures UpsertAll(t, d).Some? && '\r' !in UpsertAll(t, d).value
    ensures forall key :: GoodKey(key) ==> GetValue(UpsertAll(t, d).value, key) == Overlay(t, d, key)
    decreases |d|
  {
    if d == [] {
    } else {
      var e, rest := d[0], d[1..];
      assert e in d;
      UpsertFrame(t, e.key, e.value);
      UpsertChars(t, e.key, e.value);
      var t' := Upsert(t, e.key, e.value).value;
      forall x | x in rest ensures x in d && x.key != e.key && GoodKey(x.key) && Storable(t', x.key, x.value) {
        RestDiffers(d, x);
      }
      UpsertAllReadsOverlay(t', rest);
      forall key | GoodKey(key) ensures Overlay(t', rest, key) == Overlay(t, d, key) {
        OverlayStep(t, t', d, key);
      }
    }
  }

  lemma RestDiffers(d: seq<Entry>, x: Entry)
    requires Distinct(d) && d != [] && x in d[1..]
    ensures x in d && x.key != d[0].key
  {
    var i :| 0 <= i < |d[1..]| && d[1..][i] == x;
    assert d[i + 1] == x;
  }

  lemma OverlayStep(t: string, t': string, d: seq<Entry>, key: string)
    requires d != [] && Distinct(d)
    requires key == d[0].key ==> Lookup(t', key) == Some(d[0].value)
    requires key != d[0].key ==> Lookup(t', key) == Lookup(t, key)
    ensures Overlay(t', d[1..], key) == Overlay(t, d, key)
  {
    FirstKeyOnce(d);
  }

  lemma FirstKeyOnce(d: seq<Entry>)
    requires d != [] && Distinct(d)
    ensures !Has(d[1..], d[0].key)
  {
    assert forall j :: 0 <= j < |d[1..]| ==> d[1..][j].key == d[j + 1].key != d[0].key;
  }

  /** The committed text, read again, shows what the overlay showed. */
  lemma CommitReadsOverlay(t: string, d: seq<Entry>)
    requires '\r' !in t && Distinct(d) && GoodKeys(d)
    ensures AllStorable(t, d) ==> UpsertAll(t, d).Some?
    ensures AllStorable(t, d) ==> forall key :: GoodKey(key) ==>
      GetValue(ReadText(UpsertAll(t, d).value), key) == Overlay(t, d, key)
  {
    if AllStorable(t, d) {
      UpsertAllReadsOverlay(t, d);
      ReadPlain(UpsertAll(t, d).value);
    }
  }

  lemma {:induction false} RejectedStays(t: string, d: seq<Entry>, n: nat)
    requires n <= |d| && UpsertAll(t, d[..n]).None?
    ensures UpsertAll(t, d).None?
    decreases |d|
  {
    if d != [] && n > 0 {
      assert d[..n][0] == d[0] && d[..n][1..] == d[1..][..n - 1];
      if Upsert(t, d[0].key, d[0].value).Some? {
        RejectedStays(Upsert(t, d[0].key, d[0].value).value, d[1..], n - 1);
      }
    }
  }
}
