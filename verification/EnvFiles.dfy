/** Reading and rewriting the .env file in place (get_env_value and set_env_value in
    scripts/configure_logic.py). */
module EnvFiles {
  import opened Collections
  import opened RegexTemplate
  import opened EnvText
  import opened EnvReadBack

  class EnvFile {
    var disk: Option<string>

    constructor (disk: Option<string>)
      ensures this.disk == disk
    {
      this.disk := disk;
    }

    /** The text of the file; empty when it is missing. */
    function Text(): (t: string)
      reads this
    {
      TextOf(disk)
    }

    method GetEnvValue(key: string) returns (value: string)
      ensures Lookup(Text(), key).Some? ==> Some(value) == Lookup(Text(), key)
      ensures Lookup(Text(), key).None? ==> value == ""
    {
      value := "";
      var found := Lookup(Text(), key);
      if found.Some? {
        value := found.value;
      }
    }

    /** Rewrites the file, or raises and leaves it alone. The key then reads the value exactly when
        the value can be stored, and in that case every other key reads as before. */
    method SetEnvValue(key: string, value: string) returns (ok: bool)
      requires GoodKey(key)
      modifies this
      ensures !ok ==> disk == old(disk)
      ensures ok && GetValue(Text(), key) == value <==> Storable(old(Text()), key, value)
      ensures Storable(old(Text()), key, value) ==>
        forall other :: GoodKey(other) && other != key ==> GetValue(Text(), other) == old(GetValue(Text(), other))
      ensures Storable(old(Text()), key, value) ==>
        Lines(Text()) == UpsertLine(old(Lines(Text())), key, Start(key) + value)
    {
      var content := Text();
      Written(content, key, value);
      var line := Start(key) + value;
      if Lookup(content, key).Some? {
        var expanded := Expand(line, MatchedLine(content, key));
        if expanded.None? {
          return false;
        }
        content := Replace(content, key, expanded.value);
      } else {
        if content != "" && content[|content| - 1] != '\n' {
          content := content + "\n";
        }
        content := content + (line + "\n");
      }
      disk := Some(content);
      ok := true;
    }

    /** What an upsert of the present text leaves for the next reader. */
    lemma Written(t: string, key: string, value: string)
      requires GoodKey(key) && t == Text()
      ensures ReadsBack(t, key, value) <==> Storable(t, key, value)
      ensures Storable(t, key, value) ==>
        && ReadText(Upsert(t, key, value).value) == Upsert(t, key, value).value
        && Lines(Upsert(t, key, value).value) == UpsertLine(Lines(t), key, Start(key) + value)
        && forall other :: GoodKey(other) && other != key ==> GetValue(Upsert(t, key, value).value, other) == GetValue(t, other)
    {
      TextHasNoReturn(disk);
      ReadsBackIffStorable(t, key, value);
      if Storable(t, key, value) {
        UpsertFrame(t, key, value);
        UpsertChars(t, key, value);
        UpsertChangesOneLine(t, key, value);
        ReadPlain(Upsert(t, key, value).value);
      }
    }
  }
}
