/** The staged .env store (EnvStore in scripts/configure_services.py): an overlay of staged
    values over the file, committed by one atomic replacement. */
module EnvStorage {
  import opened Collections
  import opened EnvText
  import opened EnvReadBack
  import opened EnvOverlay
  import opened CommitExactness

  class EnvStore {
    var disk: Option<string>
    var staged: seq<Entry>

    ghost predicate Valid()
      reads this
    {
      Distinct(staged) && GoodKeys(staged)
    }

    /** The text of the file; empty when it is missing. */
    function Text(): (t: string)
      reads this
    {
      TextOf(disk)
    }

    /** What get returns for a key. */
    ghost function View(key: string): string
      reads this
    {
      Overlay(Text(), staged, key)
    }

    constructor (disk: Option<string>)
      ensures Valid() && this.disk == disk && staged == []
    {
      this.disk, staged := disk, [];
    }

    method Get(key: string) returns (value: string)
      ensures value == View(key)
    {
      if Has(staged, key) {
        return At(staged, key);
      }
      value := GetValue(Text(), key);
    }

    /** After set the key reads the value and no other key changes; a value the file already
        has is not staged anew. The file is not touched. */
    method Set(key: string, value: string)
      requires Valid() && GoodKey(key)
      modifies this`staged
      ensures Valid()
      ensures View(key) == value && forall other :: other != key ==> View(other) == old(View(other))
      ensures staged == if !old(Has(staged, key)) && GetValue(Text(), key) == value
                        then old(staged) else Put(old(staged), key, value)
    {
      forall other { PutAt(staged, key, value, other); }
      PutDistinct(staged, key, value);
      if Has(staged, key) {
        if At(staged, key) == value {
          var i := IndexOf(staged, key);
          assert staged[i := Entry(key, value)] == staged;
          return;
        }
        staged := Put(staged, key, value);
        return;
      }
      if GetValue(Text(), key) == value {
        return;
      }
      staged := Put(staged, key, value);
    }

    /** Commits the staged values. The outcome ioOk says whether writing the temporary file and
        replacing the target succeed. Either everything staged is written and the stage is
        emptied, or file and stage are as before. The commit changes what is read for no key
        exactly when every staged value can be stored. */
    method Flush(ioOk: bool) returns (ok: bool)
      requires Valid()
      modifies this
      ensures Valid()
      ensures ok <==> old(staged) == [] || (ioOk && UpsertAll(old(Text()), old(staged)).Some?)
      ensures !ok ==> disk == old(disk) && staged == old(staged)
      ensures ok ==> staged == []
      ensures ok ==> disk == if old(staged) == [] then old(disk) else UpsertAll(old(Text()), old(staged))
      ensures ok ==>
        ((forall key :: GoodKey(key) ==> View(key) == GetValue(Text(), key) == old(View(key)))
         <==> AllStorable(old(Text()), old(staged)))
      ensures ioOk && AllStorable(old(Text()), old(staged)) ==> ok
    {
      if staged == [] {
        return true;
      }
      TextHasNoReturn(disk);
      CommitIffStorable(Text(), staged);
      var content := StagedContent();
      if content.None? || !ioOk {
        return false;
      }
      disk := content;
      staged := [];
      ok := true;
    }

    /** The staged values upserted one after the other; None when one is rejected. */
    method StagedContent() returns (r: Option<string>)
      ensures r == UpsertAll(Text(), staged)
    {
      var content := Text();
      for i := 0 to |staged|
        invariant UpsertAll(Text(), staged[..i]) == Some(content)
      {
        UpsertAllNext(Text(), staged, i);
        match Upsert(content, staged[i].key, staged[i].value)
        case Some(next) =>
          content := next;
        case None =>
          RejectedStays(Text(), staged, i + 1);
          return None;
      }
      assert staged[..|staged|] == staged;
      r := Some(content);
    }
  }
}
