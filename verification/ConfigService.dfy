/** Writing a draft back to the .env file, and why loading it again gives the draft
    (ProjectConfigEnvService in hermes_vps_app/config_model.py). */
module ConfigService {
  import opened Collections
  import opened RegexTemplate
  import opened EnvText
  import opened EnvReadBack
  import opened EnvOverlay
  import opened EnvStorage
  import opened CommitExactness
  import opened ConfigModel

  /** The dictionary of a list of changes: a key listed again keeps its place and takes the
      later value. */
  function PatchValues(changes: seq<Entry>): (d: seq<Entry>)
    ensures Distinct(d)
  {
    if changes == [] then []
    else
      var front, last := PatchValues(changes[..|changes| - 1]), changes[|changes| - 1];
      PutDistinct(front, last.key, last.value);
      Put(front, last.key, last.value)
  }

  lemma {:induction false} PatchValuesGood(changes: seq<Entry>)
    requires GoodKeys(changes)
    ensures GoodKeys(PatchValues(changes))
  {
    if changes == [] {
    } else {
      var front, last := changes[..|changes| - 1], changes[|changes| - 1];
      assert last in changes;
      PatchValuesGood(front);
      PutElements(PatchValues(front), last.key, last.value);
    }
  }

  /** Without repeated keys the dictionary is the list itself. */
  lemma {:induction false} DistinctValues(changes: seq<Entry>)
    requires Distinct(changes)
    ensures PatchValues(changes) == changes
  {
    if changes == [] {
    } else {
      var front, last := changes[..|changes| - 1], changes[|changes| - 1];
      DistinctValues(front);
      assert changes == front + [last];
    }
  }

  predicate Differs(t: string, e: Entry) {
    GetValue(t, e.key) != e.value
  }

  ghost function DiffersTest(t: string): Entry -> bool {
    e => Differs(t, e)
  }

  /** The values that differ from what the text reads: the ones that get staged. */
  ghost function Differing(t: string, values: seq<Entry>): (r: seq<Entry>)
    ensures forall e :: e in r <==> e in values && Differs(t, e)
  {
    Filter(values, DiffersTest(t))
  }

  lemma NotYetStaged(t: string, values: seq<Entry>, i: nat)
    requires Distinct(values) && i < |values|
    ensures !Has(Differing(t, values[..i]), values[i].key)
    ensures Differing(t, values[..i + 1]) ==
      if Differs(t, values[i]) then Differing(t, values[..i]) + [values[i]] else Differing(t, values[..i])
  {
    FilterNext(values, i, DiffersTest(t));
    var d := Differing(t, values[..i]);
    forall e | e in d ensures e.key != values[i].key {
      var j :| 0 <= j < i && values[..i][j] == e;
    }
    AbsentKey(d, values[i].key);
  }

  /** Laid over the text, the differing values show the same as all of them. */
  lemma DifferingShows(t: string, values: seq<Entry>, key: string)
    requires Distinct(values)
    ensures Overlay(t, Differing(t, values), key) == Overlay(t, values, key)
  {
    FirstDifferingShow(t, values, |values|, key);
    assert values[..|values|] == values;
  }

  lemma {:induction false} FirstDifferingShow(t: string, values: seq<Entry>, n: nat, key: string)
    requires Distinct(values) && n <= |values|
    ensures Overlay(t, Differing(t, values[..n]), key) == Overlay(t, values[..n], key)
  {
    if n == 0 {
    } else {
      FirstDifferingShow(t, values, n - 1, key);
      NotYetStaged(t, values, n - 1);
      NotAmongFirst(values, n - 1);
      SplitAround(values, n - 1);
      OverlaySnoc(t, values[..n - 1], values[n - 1], key);
      OverlaySnoc(t, Differing(t, values[..n - 1]), values[n - 1], key);
    }
  }

  lemma NotAmongFirst(values: seq<Entry>, i: nat)
    requires Distinct(values) && i < |values|
    ensures !Has(values[..i], values[i].key)
  {
    forall e | e in values[..i] ensures e.key != values[i].key {
      var j :| 0 <= j < i && values[..i][j] == e;
    }
    AbsentKey(values[..i], values[i].key);
  }

  lemma OverlaySnoc(t: string, d: seq<Entry>, e: Entry, key: string)
    ensures !Has(d, e.key) ==> Overlay(t, d + [e], key) == if key == e.key then e.value else Overlay(t, d, key)
  {
    PutAt(d, e.key, e.value, key);
  }

  /** t' reads for every key its value in the dictionary, or what t reads. */
  ghost predicate Written(t: string, values: seq<Entry>, t': string) {
    forall key :: GoodKey(key) ==> GetValue(t', key) == Overlay(t, values, key)
  }

  class ProjectConfigEnvService {
    const template: Option<string>
    var disk: Option<string>

    constructor (disk: Option<string>, template: Option<string>)
      ensures this.disk == disk && this.template == template
    {
      this.disk, this.template := disk, template;
    }

    /** The text of the file; empty when it is missing. */
    function Text(): (t: string)
      reads this
    {
      TextOf(disk)
    }

    /** The file after a missing one has been created from the template. */
    function Ensured(): Option<string>
      reads this
    {
      if disk.None? then template else disk
    }

    /** Stages a dictionary of values over a store with nothing staged. */
    method StagePatch(store: EnvStore, values: seq<Entry>)
      requires store.Valid() && store.staged == [] && Distinct(values) && GoodKeys(values)
      modifies store`staged
      ensures store.Valid() && store.staged == Differing(store.Text(), values)
      ensures forall key :: store.View(key) == Overlay(store.Text(), values, key)
    {
      for i := 0 to |values|
        invariant store.Valid() && store.staged == Differing(store.Text(), values[..i])
      {
        NotYetStaged(store.Text(), values, i);
        assert values[i] in values;
        store.Set(values[i].key, values[i].value);
      }
      assert values[..|values|] == values;
      forall key { DifferingShows(store.Text(), values, key); }
    }

    /** Writes a list of changes. When it fails the file is as before (a missing file has been
        created from the template). Otherwise every key reads its last value in the list, or what
        it read before, exactly when the values that differ from the file can be stored. */
    method WritePatch(changes: seq<Entry>, ioOk: bool) returns (ok: bool)
      requires GoodKeys(changes)
      modifies this
      ensures !ok ==> disk == if template.None? then old(disk) else old(Ensured())
      ensures template.None? ==> !ok
      ensures var t, staged := TextOf(old(Ensured())), Differing(TextOf(old(Ensured())), PatchValues(changes));
        && (ok ==> disk.Some? && disk == if staged == [] then old(Ensured()) else UpsertAll(t, staged))
        && (ok ==> (Written(t, PatchValues(changes), Text()) <==> AllStorable(t, staged)))
        && (template.Some? && ioOk && AllStorable(t, staged) ==> ok)
    {
      if template.None? {
        return false;
      }
      if disk.None? {
        disk := template;
      }
      var values := PatchValues(changes);
      PatchValuesGood(changes);
      var store := new EnvStore(disk);
      StagePatch(store, values);
      ok := store.Flush(ioOk);
      disk := store.disk;
    }

    /** The draft was loaded from the file, which is there, or has no original values of its own. */
    ghost predicate LoadedHere(draft: ProjectConfigDraft)
      reads this
    {
      disk.Some? && draft.originalEnv in [map[], KnownValues(Text())]
    }

    /** Saving a draft. When it was loaded from a file that is there and saving succeeds, what is
        loaded next is the draft saved, exactly when every value the draft changes can be stored;
        and then saving what was loaded next has nothing left to change. */
    method SaveDraft(draft: ProjectConfigDraft, ioOk: bool) returns (ok: bool, patch: seq<EnvChange>)
      requires draft.originalEnv == map[] || forall k: EnvKey :: k in draft.originalEnv
      modifies this
      ensures !ok ==> disk == if template.None? then old(disk) else old(Ensured())
      ensures old(LoadedHere(draft)) && template.Some? && ioOk && DraftStorable(old(Text()), draft) ==> ok
      ensures old(LoadedHere(draft)) && ok ==> (Saved(old(Text()), draft, Text()) <==> DraftStorable(old(Text()), draft))
      ensures old(LoadedHere(draft)) && ok && DraftStorable(old(Text()), draft) ==> ReadsOthersAsBefore(old(Text()), Text())
      ensures old(LoadedHere(draft)) && ok && DraftStorable(old(Text()), draft) ==> HoldsDraft(Text(), draft)
      ensures old(LoadedHere(draft)) && ok && DraftStorable(old(Text()), draft) ==> NothingLeft(Text())
    {
      ghost var t := Text();
      patch := CreatePatch(draft, Text());
      EntriesAreGood(patch);
      ghost var here := LoadedHere(draft);
      if here {
        PatchOfDraft(t, draft, patch);
      }
      TextHasNoReturn(disk);
      ok := WritePatch(EntriesOf(patch), ioOk);
      if ok && here {
        SavedIffStorable(t, draft, patch, disk);
      }
    }
  }

  /** A draft loaded from t has nothing to change. */
  ghost predicate NothingLeft(t: string) {
    forall patch :: IsPatch(Load(t), KnownValues(t), patch) ==> patch == []
  }

  /** The changes of a patch by name. */
  function EntriesOf(patch: seq<EnvChange>): (r: seq<Entry>)
    ensures |r| == |patch| && forall i :: 0 <= i < |r| ==> r[i] == Entry(Name(patch[i].key), patch[i].after)
  {
    seq(|patch|, i requires 0 <= i < |patch| => Entry(Name(patch[i].key), patch[i].after))
  }

  lemma EntriesAreGood(patch: seq<EnvChange>)
    ensures GoodKeys(EntriesOf(patch))
  {
    hide Name;
    var d := EntriesOf(patch);
    forall e | e in d ensures GoodKey(e.key) {
      var i :| 0 <= i < |d| && d[i] == e;
      NameIsGood(patch[i].key);
    }
  }

  lemma EntriesAreDistinct(patch: seq<EnvChange>)
    requires forall i, j :: 0 <= i < j < |patch| ==> patch[i].key != patch[j].key
    ensures Distinct(EntriesOf(patch))
  {
    hide Name;
    forall i, j | 0 <= i < j < |patch| ensures Name(patch[i].key) != Name(patch[j].key) {
      SameName(patch[i].key, patch[j].key);
    }
  }

  /** Every value the draft wants changed can be stored. */
  ghost predicate DraftStorable(t: string, draft: ProjectConfigDraft) {
    forall k: EnvKey :: Target(draft, KnownValues(t), k) != GetValue(t, Name(k)) ==>
      Storable(t, Name(k), Target(draft, KnownValues(t), k))
  }

  /** Of a patch every change differs from the file, and the values staged are the draft's. */
  lemma PatchOfDraft(t: string, draft: ProjectConfigDraft, patch: seq<EnvChange>)
    requires IsPatch(draft, KnownValues(t), patch)
    ensures Differing(t, PatchValues(EntriesOf(patch))) == PatchValues(EntriesOf(patch)) == EntriesOf(patch)
    ensures AllStorable(t, EntriesOf(patch)) <==> DraftStorable(t, draft)
  {
    hide Name;
    var d := EntriesOf(patch);
    EntriesAreDistinct(patch);
    DistinctValues(d);
    forall e | e in d ensures Differs(t, e) {
      var i :| 0 <= i < |d| && d[i] == e;
      assert IsChange(draft, KnownValues(t), patch[i]);
    }
    FilterAll(d, DiffersTest(t));
    StorableByKey(t, draft, patch);
  }

  lemma StorableByKey(t: string, draft: ProjectConfigDraft, patch: seq<EnvChange>)
    requires IsPatch(draft, KnownValues(t), patch)
    ensures AllStorable(t, EntriesOf(patch)) <==> DraftStorable(t, draft)
  {
    hide Name;
    hide Target;
    var d := EntriesOf(patch);
    if AllStorable(t, d) {
      forall k: EnvKey | Target(draft, KnownValues(t), k) != GetValue(t, Name(k))
        ensures Storable(t, Name(k), Target(draft, KnownValues(t), k))
      {
        var i := ChangeOf(t, draft, patch, k);
        assert d[i] in d;
      }
    }
    if DraftStorable(t, draft) {
      forall e | e in d ensures Storable(t, e.key, e.value) {
        var i :| 0 <= i < |d| && d[i] == e;
        assert IsChange(draft, KnownValues(t), patch[i]);
      }
    }
  }

  /** Where a patch changes a key whose target differs from the file. */
  lemma ChangeOf(t: string, draft: ProjectConfigDraft, patch: seq<EnvChange>, k: EnvKey) returns (i: nat)
    requires IsPatch(draft, KnownValues(t), patch) && Target(draft, KnownValues(t), k) != GetValue(t, Name(k))
    ensures i < |patch| && EntriesOf(patch)[i] == Entry(Name(k), Target(draft, KnownValues(t), k))
  {
    hide Name;
    hide Target;
    assert InPatch(patch, k);
    var c :| c in patch && c.key == k;
    i :| 0 <= i < |patch| && patch[i] == c;
    assert IsChange(draft, KnownValues(t), c);
  }

  /** Keys the panel does not know read as before. */
  ghost predicate ReadsOthersAsBefore(t: string, t': string) {
    forall key :: GoodKey(key) && KeyNamed(key).None? ==> GetValue(t', key) == GetValue(t, key)
  }

  ghost predicate SameServer(a: ProjectConfigDraft, b: ProjectConfigDraft) {
    && a.location == b.location && a.serverType == b.serverType && a.image == b.image
    && a.hostname == b.hostname && a.adminUsername == b.adminUsername && a.adminGroup == b.adminGroup
    && a.sshPrivateKeyPath == b.sshPrivateKeyPath && a.sshPort == b.sshPort
  }

  ghost predicate SameHermes(a: ProjectConfigDraft, b: ProjectConfigDraft) {
    && a.hermesProvider == b.hermesProvider && a.model == b.model
    && a.agentVersion == b.agentVersion && a.agentReleaseTag == b.agentReleaseTag
  }

  ghost predicate SameGateway(a: ProjectConfigDraft, b: ProjectConfigDraft) {
    a.telegramAllowlistIds == b.telegramAllowlistIds && a.telegramPollTimeout == b.telegramPollTimeout
  }

  /** Equal in every setting that is written to the file and is not a secret. */
  ghost predicate SameSettings(a: ProjectConfigDraft, b: ProjectConfigDraft) {
    a.provider == b.provider && SameServer(a, b) && SameHermes(a, b) && SameGateway(a, b)
  }

  function SecretOf(draft: ProjectConfigDraft, k: EnvKey): SecretDraft
    requires IsSecret(k)
  {
    match k
    case HcloudToken => draft.hcloudToken
    case LinodeToken => draft.linodeToken
    case HermesApiKey => draft.apiKey
    case TelegramBotToken => draft.telegramBotToken
    case _ => SecretDraft(false, None)
  }

  lemma WrittenReadsTarget(t: string, draft: ProjectConfigDraft, patch: seq<EnvChange>, t': string, k: EnvKey)
    requires IsPatch(draft, KnownValues(t), patch) && Written(t, EntriesOf(patch), t')
    ensures GetValue(t', Name(k)) == Target(draft, KnownValues(t), k)
  {
    hide Name;
    hide Target;
    var d := EntriesOf(patch);
    NameIsGood(k);
    EntriesAreDistinct(patch);
    if Target(draft, KnownValues(t), k) != GetValue(t, Name(k)) {
      var i := ChangeOf(t, draft, patch, k);
      AtDistinct(d, i);
    } else if Has(d, Name(k)) {
      var i := IndexOf(d, Name(k));
      SameName(patch[i].key, k);
      assert IsChange(draft, KnownValues(t), patch[i]);
    }
  }

  ghost predicate ReadsTarget(draft: ProjectConfigDraft, original: map<EnvKey, string>, values: map<EnvKey, string>, k: EnvKey) {
    k in original && k in values && values[k] == Target(draft, original, k)
  }

  ghost predicate ReadsTargets(draft: ProjectConfigDraft, original: map<EnvKey, string>, values: map<EnvKey, string>) {
    forall k: EnvKey :: ReadsTarget(draft, original, values, k)
  }

  lemma TargetGivesProvider(draft: ProjectConfigDraft, original: map<EnvKey, string>, values: map<EnvKey, string>)
    requires ReadsTargets(draft, original, values) && forall k: EnvKey :: k in values
    ensures FromValues(values).provider == draft.provider
  {
    ProvidersDiffer();
    assert ReadsTarget(draft, original, values, CloudProviderKey);
  }

  lemma TargetsGiveServer(draft: ProjectConfigDraft, original: map<EnvKey, string>, values: map<EnvKey, string>)
    requires ReadsTargets(draft, original, values) && forall k: EnvKey :: k in values
    ensures SameServer(FromValues(values), draft)
  {
    assert ReadsTarget(draft, original, values, ServerLocation);
    assert ReadsTarget(draft, original, values, ServerType);
    assert ReadsTarget(draft, original, values, ServerImage);
    assert ReadsTarget(draft, original, values, Hostname);
    assert ReadsTarget(draft, original, values, AdminUsername);
    assert ReadsTarget(draft, original, values, AdminGroup);
    assert ReadsTarget(draft, original, values, SshPrivateKeyPath);
    assert ReadsTarget(draft, original, values, SshPort);
  }

  lemma TargetsGiveHermes(draft: ProjectConfigDraft, original: map<EnvKey, string>, values: map<EnvKey, string>)
    requires ReadsTargets(draft, original, values) && forall k: EnvKey :: k in values
    ensures SameHermes(FromValues(values), draft)
  {
    assert ReadsTarget(draft, original, values, HermesProvider);
    assert ReadsTarget(draft, original, values, HermesModel);
    assert ReadsTarget(draft, original, values, AgentVersion);
    assert ReadsTarget(draft, original, values, AgentReleaseTag);
  }

  lemma TargetsGiveGateway(draft: ProjectConfigDraft, original: map<EnvKey, string>, values: map<EnvKey, string>)
    requires ReadsTargets(draft, original, values) && forall k: EnvKey :: k in values
    ensures SameGateway(FromValues(values), draft)
  {
    assert ReadsTarget(draft, original, values, TelegramAllowlistIds);
    assert ReadsTarget(draft, original, values, TelegramPollTimeout);
  }

  lemma TargetsGiveSettings(draft: ProjectConfigDraft, original: map<EnvKey, string>, values: map<EnvKey, string>)
    requires ReadsTargets(draft, original, values) && forall k: EnvKey :: k in values
    ensures SameSettings(FromValues(values), draft)
  {
    TargetGivesProvider(draft, original, values);
    TargetsGiveServer(draft, original, values);
    TargetsGiveHermes(draft, original, values);
    TargetsGiveGateway(draft, original, values);
  }

  lemma TargetsGiveSecret(draft: ProjectConfigDraft, original: map<EnvKey, string>, values: map<EnvKey, string>, k: EnvKey)
    requires ReadsTarget(draft, original, values, k) && IsSecret(k)
    ensures values[k] == if SecretOf(draft, k).replacement.Some? then SecretOf(draft, k).replacement.value else original[k]
  {
  }

  /** What the next reader of t' gets of a draft loaded from t: its settings (an empty model is
      cleared), a replaced secret's new value and any other secret's old one. */
  ghost predicate Saved(t: string, draft: ProjectConfigDraft, t': string) {
    SameSettings(Load(t'), draft) && SecretsSaved(t, draft, t')
  }

  ghost predicate SecretsSaved(t: string, draft: ProjectConfigDraft, t': string) {
    forall k :: IsSecret(k) ==>
      KnownValues(t')[k] ==
        if SecretOf(draft, k).replacement.Some? then SecretOf(draft, k).replacement.value else KnownValues(t)[k]
  }

  /** Round trip: once the patch of a draft loaded from t has been written, the draft is saved and
      keys the panel does not know read as before. */
  lemma DraftRoundTrip(t: string, draft: ProjectConfigDraft, patch: seq<EnvChange>, t': string)
    requires IsPatch(draft, KnownValues(t), patch) && Written(t, EntriesOf(patch), t')
    ensures Saved(t, draft, t') && ReadsOthersAsBefore(t, t')
  {
    forall k: EnvKey ensures ReadsTarget(draft, KnownValues(t), KnownValues(t'), k) {
      WrittenReadsTarget(t, draft, patch, t', k);
    }
    TargetsGiveSettings(draft, KnownValues(t), KnownValues(t'));
    forall k | IsSecret(k) { TargetsGiveSecret(draft, KnownValues(t), KnownValues(t'), k); }
    forall key | GoodKey(key) && KeyNamed(key).None? ensures GetValue(t', key) == GetValue(t, key) {
      UnknownKeyUnpatched(patch, key);
    }
  }

  lemma ServerSettingRead(draft: ProjectConfigDraft, original: map<EnvKey, string>, values: map<EnvKey, string>, k: EnvKey)
    requires (forall k: EnvKey :: k in values && k in original) && SameServer(FromValues(values), draft)
    requires k.ServerLocation? || k.ServerType? || k.ServerImage? || k.Hostname? || k.AdminUsername?
          || k.AdminGroup? || k.SshPrivateKeyPath? || k.SshPort?
    ensures ReadsTarget(draft, original, values, k)
  {
  }

  lemma OtherSettingRead(draft: ProjectConfigDraft, original: map<EnvKey, string>, values: map<EnvKey, string>, k: EnvKey)
    requires forall k: EnvKey :: k in values && k in original
    requires SameHermes(FromValues(values), draft) && SameGateway(FromValues(values), draft)
    requires k.HermesProvider? || k.HermesModel? || k.AgentVersion? || k.AgentReleaseTag?
          || k.TelegramAllowlistIds? || k.TelegramPollTimeout?
    ensures ReadsTarget(draft, original, values, k)
  {
  }

  lemma SecretRead(draft: ProjectConfigDraft, original: map<EnvKey, string>, values: map<EnvKey, string>, k: EnvKey)
    requires (forall k: EnvKey :: k in values && k in original) && IsSecret(k)
    requires values[k] == if SecretOf(draft, k).replacement.Some? then SecretOf(draft, k).replacement.value else original[k]
    ensures ReadsTarget(draft, original, values, k)
  {
  }

  /** A saved draft reads its target back for every key but the provider, whose text is only told
      apart from "linode". */
  lemma SavedReadsTarget(t: string, draft: ProjectConfigDraft, t': string, k: EnvKey)
    requires Saved(t, draft, t') && k != CloudProviderKey
    ensures GetValue(t', Name(k)) == Target(draft, KnownValues(t), k)
  {
    hide Name;
    hide Target;
    hide KnownValues;
    hide SecretOf;
    var original, values := KnownValues(t), KnownValues(t');
    if IsSecret(k) {
      SecretRead(draft, original, values, k);
    } else if k.HermesProvider? || k.HermesModel? || k.AgentVersion? || k.AgentReleaseTag?
           || k.TelegramAllowlistIds? || k.TelegramPollTimeout? {
      OtherSettingRead(draft, original, values, k);
    } else {
      ServerSettingRead(draft, original, values, k);
    }
  }

  lemma ProviderIsPlain(p: CloudProvider)
    ensures PlainText(ProviderText(p))
  {
    PlainIsSafe(ProviderText(p));
  }

  /** A saved draft means that the changed values that cannot be stored everywhere came back. */
  lemma SavedMeansReadBack(t: string, draft: ProjectConfigDraft, patch: seq<EnvChange>, raw: string)
    requires IsPatch(draft, KnownValues(t), patch) && Saved(t, draft, ReadText(raw))
    ensures RiskyReadBack(raw, EntriesOf(patch))
  {
    hide Name;
    var d := EntriesOf(patch);
    forall e | e in d && !PlainText(e.value) ensures GetValue(ReadText(raw), e.key) == e.value {
      var i :| 0 <= i < |d| && d[i] == e;
      assert IsChange(draft, KnownValues(t), patch[i]);
      ProviderIsPlain(draft.provider);
      SavedReadsTarget(t, draft, ReadText(raw), patch[i].key);
    }
  }

  /** After a successful write of the patch of a draft. */
  lemma SavedIffStorable(t: string, draft: ProjectConfigDraft, patch: seq<EnvChange>, disk: Option<string>)
    requires '\r' !in t && IsPatch(draft, KnownValues(t), patch) && disk.Some?
    requires patch != [] ==> disk == UpsertAll(t, EntriesOf(patch))
    requires patch == [] ==> TextOf(disk) == t
    requires Written(t, EntriesOf(patch), TextOf(disk)) <==> AllStorable(t, EntriesOf(patch))
    ensures Saved(t, draft, TextOf(disk)) <==> DraftStorable(t, draft)
    ensures DraftStorable(t, draft) ==> ReadsOthersAsBefore(t, TextOf(disk))
    ensures DraftStorable(t, draft) ==> NothingLeft(TextOf(disk)) && HoldsDraft(TextOf(disk), draft)
  {
    hide HoldsDraft;
    PatchOfDraft(t, draft, patch);
    if DraftStorable(t, draft) {
      WrittenHoldsDraft(t, draft, patch, TextOf(disk));
      DraftRoundTrip(t, draft, patch, TextOf(disk));
      forall again | IsPatch(Load(TextOf(disk)), KnownValues(TextOf(disk)), again) ensures again == [] {
        SecondPatchIsEmpty(t, draft, patch, TextOf(disk), again);
      }
    }
    if Saved(t, draft, TextOf(disk)) && patch != [] {
      SavedMeansReadBack(t, draft, patch, disk.value);
      EntriesAreDistinct(patch);
      EntriesAreGood(patch);
      CommitIffStorable(t, EntriesOf(patch));
    }
  }

  lemma ProvidersDiffer()
    ensures ProviderText(Hetzner) != ProviderText(Linode)
    ensures ProviderText(Linode) == "linode" && ProviderText(Hetzner) != "linode"
  {
    assert "hetzner"[0] != "linode"[0];
  }

  lemma UnknownKeyUnpatched(patch: seq<EnvChange>, key: string)
    requires KeyNamed(key).None?
    ensures !Has(EntriesOf(patch), key)
  {
    hide Name;
    hide KeyNamed;
    var d := EntriesOf(patch);
    if Has(d, key) {
      NameIsUnique(patch[IndexOf(d, key)].key);
    }
  }

  // ---------------------------------------------------------------------------
  // Which line of the file holds which field of the draft.

  ghost predicate HoldsServer(t: string, draft: ProjectConfigDraft) {
    && GetValue(t, "TF_VAR_server_location") == draft.location
    && GetValue(t, "TF_VAR_server_type") == draft.serverType
    && GetValue(t, "TF_VAR_server_image") == draft.image
    && GetValue(t, "TF_VAR_hostname") == draft.hostname
    && GetValue(t, "TF_VAR_admin_username") == draft.adminUsername
    && GetValue(t, "TF_VAR_admin_group") == draft.adminGroup
    && GetValue(t, "BOOTSTRAP_SSH_PRIVATE_KEY_PATH") == draft.sshPrivateKeyPath
    && GetValue(t, "BOOTSTRAP_SSH_PORT") == draft.sshPort
  }

  ghost predicate HoldsAgent(t: string, draft: ProjectConfigDraft) {
    && GetValue(t, "TF_VAR_hermes_provider") == draft.hermesProvider
    && GetValue(t, "TF_VAR_hermes_model") == draft.model
    && GetValue(t, "HERMES_AGENT_VERSION") == draft.agentVersion
    && GetValue(t, "HERMES_AGENT_RELEASE_TAG") == draft.agentReleaseTag
    && GetValue(t, "TELEGRAM_ALLOWLIST_IDS") == draft.telegramAllowlistIds
    && GetValue(t, "TELEGRAM_POLL_TIMEOUT") == draft.telegramPollTimeout
  }

  ghost predicate HoldsProvider(t: string, draft: ProjectConfigDraft) {
    GetValue(t, "TF_VAR_cloud_provider") == if draft.provider.Hetzner? then "hetzner" else "linode"
  }

  ghost predicate HoldsReplaced(t: string, draft: ProjectConfigDraft) {
    && (draft.hcloudToken.replacement.Some? ==> GetValue(t, "HCLOUD_TOKEN") == draft.hcloudToken.replacement.value)
    && (draft.linodeToken.replacement.Some? ==> GetValue(t, "LINODE_TOKEN") == draft.linodeToken.replacement.value)
    && (draft.apiKey.replacement.Some? ==> GetValue(t, "HERMES_API_KEY") == draft.apiKey.replacement.value)
    && (draft.telegramBotToken.replacement.Some? ==> GetValue(t, "TELEGRAM_BOT_TOKEN") == draft.telegramBotToken.replacement.value)
  }

  /** Every setting of the draft and every replaced secret is on its line of the file. */
  ghost predicate HoldsDraft(t: string, draft: ProjectConfigDraft) {
    HoldsProvider(t, draft) && HoldsServer(t, draft) && HoldsAgent(t, draft) && HoldsReplaced(t, draft)
  }

  ghost predicate HoldsTarget(t: string, draft: ProjectConfigDraft, original: map<EnvKey, string>, k: EnvKey) {
    k in original && GetValue(t, Name(k)) == Target(draft, original, k)
  }

  lemma ServerNames()
    ensures Name(ServerLocation) == "TF_VAR_server_location" && Name(ServerType) == "TF_VAR_server_type"
    ensures Name(ServerImage) == "TF_VAR_server_image" && Name(Hostname) == "TF_VAR_hostname"
    ensures Name(AdminUsername) == "TF_VAR_admin_username" && Name(AdminGroup) == "TF_VAR_admin_group"
    ensures Name(SshPrivateKeyPath) == "BOOTSTRAP_SSH_PRIVATE_KEY_PATH" && Name(SshPort) == "BOOTSTRAP_SSH_PORT"
  {
  }

  lemma AgentLineNames()
    ensures Name(HermesProvider) == "TF_VAR_hermes_provider" && Name(HermesModel) == "TF_VAR_hermes_model"
    ensures Name(AgentVersion) == "HERMES_AGENT_VERSION" && Name(AgentReleaseTag) == "HERMES_AGENT_RELEASE_TAG"
    ensures Name(TelegramAllowlistIds) == "TELEGRAM_ALLOWLIST_IDS" && Name(TelegramPollTimeout) == "TELEGRAM_POLL_TIMEOUT"
  {
  }

  lemma TargetsHoldServer(t: string, draft: ProjectConfigDraft, original: map<EnvKey, string>)
    requires forall k: EnvKey :: k != CloudProviderKey ==> HoldsTarget(t, draft, original, k)
    ensures HoldsServer(t, draft)
  {
    hide Name;
    ServerNames();
    hide GetValue;
    assert HoldsTarget(t, draft, original, ServerLocation) && HoldsTarget(t, draft, original, ServerType);
    assert HoldsTarget(t, draft, original, ServerImage) && HoldsTarget(t, draft, original, Hostname);
    assert HoldsTarget(t, draft, original, AdminUsername) && HoldsTarget(t, draft, original, AdminGroup);
    assert HoldsTarget(t, draft, original, SshPrivateKeyPath) && HoldsTarget(t, draft, original, SshPort);
  }

  lemma TargetsHoldAgent(t: string, draft: ProjectConfigDraft, original: map<EnvKey, string>)
    requires forall k: EnvKey :: k != CloudProviderKey ==> HoldsTarget(t, draft, original, k)
    ensures HoldsAgent(t, draft)
  {
    hide Name;
    AgentLineNames();
    hide GetValue;
    assert HoldsTarget(t, draft, original, HermesProvider) && HoldsTarget(t, draft, original, HermesModel);
    assert HoldsTarget(t, draft, original, AgentVersion) && HoldsTarget(t, draft, original, AgentReleaseTag);
    assert HoldsTarget(t, draft, original, TelegramAllowlistIds) && HoldsTarget(t, draft, original, TelegramPollTimeout);
  }

  lemma TargetHoldsProvider(t: string, draft: ProjectConfigDraft, original: map<EnvKey, string>)
    requires HoldsTarget(t, draft, original, CloudProviderKey)
    ensures HoldsProvider(t, draft)
  {
    hide GetValue;
  }

  lemma TargetsHoldReplaced(t: string, draft: ProjectConfigDraft, original: map<EnvKey, string>)
    requires forall k: EnvKey :: k != CloudProviderKey ==> HoldsTarget(t, draft, original, k)
    ensures HoldsReplaced(t, draft)
  {
    hide GetValue;
    assert HoldsTarget(t, draft, original, HcloudToken) && HoldsTarget(t, draft, original, LinodeToken);
    assert HoldsTarget(t, draft, original, HermesApiKey) && HoldsTarget(t, draft, original, TelegramBotToken);
  }

  /** A written patch puts the draft on its lines. */
  lemma WrittenHoldsDraft(t: string, draft: ProjectConfigDraft, patch: seq<EnvChange>, t': string)
    requires IsPatch(draft, KnownValues(t), patch) && Written(t, EntriesOf(patch), t')
    ensures HoldsDraft(t', draft)
  {
    hide Name;
    hide Target;
    hide GetValue;
    hide HoldsServer;
    hide HoldsAgent;
    hide HoldsProvider;
    hide HoldsReplaced;
    forall k: EnvKey ensures HoldsTarget(t', draft, KnownValues(t), k) {
      WrittenReadsTarget(t, draft, patch, t', k);
    }
    TargetsHoldServer(t', draft, KnownValues(t));
    TargetsHoldAgent(t', draft, KnownValues(t));
    TargetsHoldReplaced(t', draft, KnownValues(t));
    TargetHoldsProvider(t', draft, KnownValues(t));
  }

  /** A secret is present when its line has a value other than the placeholder; its value is not
      read into the draft. */
  ghost predicate ShowsSecret(t: string, name: string, secret: SecretDraft) {
    secret.replacement.None? && (secret.present <==> GetValue(t, name) != "" && GetValue(t, name) != "***")
  }

  /** Loading reads every field from its line. */
  lemma LoadReadsLines(t: string)
    ensures HoldsServer(t, Load(t)) && HoldsAgent(t, Load(t))
    ensures Load(t).provider.Linode? <==> GetValue(t, "TF_VAR_cloud_provider") == "linode"
    ensures ShowsSecret(t, "HCLOUD_TOKEN", Load(t).hcloudToken)
    ensures ShowsSecret(t, "LINODE_TOKEN", Load(t).linodeToken)
    ensures ShowsSecret(t, "HERMES_API_KEY", Load(t).apiKey)
    ensures ShowsSecret(t, "TELEGRAM_BOT_TOKEN", Load(t).telegramBotToken)
  {
    LoadHolds(t);
    LoadShowsSecrets(t);
  }

  lemma LoadShowsSecrets(t: string)
    ensures Load(t).provider.Linode? <==> GetValue(t, "TF_VAR_cloud_provider") == "linode"
    ensures ShowsSecret(t, "HCLOUD_TOKEN", Load(t).hcloudToken)
    ensures ShowsSecret(t, "LINODE_TOKEN", Load(t).linodeToken)
    ensures ShowsSecret(t, "HERMES_API_KEY", Load(t).apiKey)
    ensures ShowsSecret(t, "TELEGRAM_BOT_TOKEN", Load(t).telegramBotToken)
  {
    hide GetValue;
    var values := KnownValues(t);
    assert values[CloudProviderKey] == GetValue(t, "TF_VAR_cloud_provider");
    assert values[HcloudToken] == GetValue(t, "HCLOUD_TOKEN");
    assert values[LinodeToken] == GetValue(t, "LINODE_TOKEN");
    assert values[HermesApiKey] == GetValue(t, "HERMES_API_KEY");
    assert values[TelegramBotToken] == GetValue(t, "TELEGRAM_BOT_TOKEN");
  }

  lemma LoadHolds(t: string)
    ensures HoldsServer(t, Load(t)) && HoldsAgent(t, Load(t))
  {
    hide GetValue;
    hide Name;
    hide Target;
    hide HoldsServer;
    hide HoldsAgent;
    hide FromValues;
    var original := KnownValues(t);
    forall k: EnvKey | k != CloudProviderKey ensures HoldsTarget(t, Load(t), original, k) {
      UneditedTarget(original, k);
    }
    TargetsHoldServer(t, Load(t), original);
    TargetsHoldAgent(t, Load(t), original);
  }

  /** A draft loaded and not edited changes nothing exactly when the file names a provider the
      panel knows; otherwise saving rewrites the provider. */
  lemma UneditedPatch(t: string, patch: seq<EnvChange>)
    requires IsPatch(Load(t), KnownValues(t), patch)
    ensures patch == [] <==> GetValue(t, Name(CloudProviderKey)) in ["hetzner", "linode"]
    ensures forall c :: c in patch ==> c.key == CloudProviderKey
  {
    var draft, original := Load(t), KnownValues(t);
    forall k: EnvKey ensures Target(draft, original, k) != original[k] <==>
      k == CloudProviderKey && original[k] !in ["hetzner", "linode"]
    {
      UneditedTarget(original, k);
    }
    if patch != [] {
      assert IsChange(draft, original, patch[0]);
    }
    forall c | c in patch ensures c.key == CloudProviderKey {
      assert IsChange(draft, original, c);
    }
  }

  lemma UneditedTarget(original: map<EnvKey, string>, k: EnvKey)
    requires forall k: EnvKey :: k in original
    ensures Target(FromValues(original), original, k) != original[k] <==>
            k == CloudProviderKey && original[k] !in ["hetzner", "linode"]
  {
    ProvidersDiffer();
  }

  /** Saving twice: after a written patch, the reloaded draft has nothing left to change. */
  lemma SecondPatchIsEmpty(t: string, draft: ProjectConfigDraft, patch: seq<EnvChange>, t': string, again: seq<EnvChange>)
    requires IsPatch(draft, KnownValues(t), patch) && Written(t, EntriesOf(patch), t')
    requires IsPatch(Load(t'), KnownValues(t'), again)
    ensures again == []
  {
    WrittenReadsTarget(t, draft, patch, t', CloudProviderKey);
    UneditedPatch(t', again);
    assert GetValue(t', Name(CloudProviderKey)) == ProviderText(draft.provider);
  }
}
