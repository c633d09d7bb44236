/** What the effects of the apply pipeline set, one after the other (the persist steps and
    _run_apply_effect in scripts/configure_services.py). */
module ApplyEffects {
  import opened Collections
  import opened EnvText
  import opened EnvReadBack
  import opened EnvOverlay
  import opened ConfigModel

  const PUBLIC_KEY := "TF_VAR_admin_ssh_public_key"

  datatype WizardState = WizardState(
    provider: string, tokenReplace: bool, tokenInput: string, serverImage: string,
    location: string, serverType: string, hostname: string, adminUsername: string,
    adminGroup: string, sshPrivateKeyPath: string, agentVersion: string,
    agentReleaseTag: string, hermesProvider: string, hermesModel: string,
    authMethod: string, apiKeyInput: string, botTokenReplace: bool, botTokenInput: string,
    allowlistIds: string)

  datatype SshKey = SshKey(path: string, publicKey: string)

  /** What lies outside: the release tag found for the version, the OAuth artifact, the key
      pair, the SSH configuration and the file system. None and false stand for a raised error. */
  datatype World = World(
    releaseTag: string, artifactPresent: bool, artifactRemovable: bool, localAuth: bool,
    artifactCaptured: bool, sshKey: Option<SshKey>, aliasOk: bool, flushOk: bool)

  const APPLY_EFFECT_ORDER: seq<string> := [
    "persist_cloud", "persist_server", "persist_hermes", "persist_telegram",
    "stage_extras", "ensure_ssh_key", "reconcile_ssh_alias", "flush_env"]

  /** The outcome of an effect other than the commit: an error, or the values it sets in order. */
  datatype Outcome = Raised | Sets(state: WizardState, writes: seq<Entry>)

  function TokenKey(provider: string): EnvKey {
    if provider == "hetzner" then HcloudToken else LinodeToken
  }

  function Write(k: EnvKey, value: string): Entry {
    Entry(Name(k), value)
  }

  function WriteIf(c: bool, k: EnvKey, value: string): seq<Entry> {
    if c then [Write(k, value)] else []
  }

  function CloudEffect(s: WizardState, tokenBefore: string): Outcome {
    if s.provider != "linode" && s.provider != "hetzner" then Raised
    else
      var image := if s.provider == "linode" then "linode/debian13" else "debian-13";
      Sets(s.(serverImage := image),
           [Write(CloudProviderKey, s.provider), Write(ServerImage, image)]
           + WriteIf(s.tokenReplace || !IsPresent(tokenBefore), TokenKey(s.provider), s.tokenInput))
  }

  function ServerEffect(s: WizardState): Outcome {
    Sets(s, [Write(ServerLocation, s.location), Write(ServerType, s.serverType),
             Write(Hostname, s.hostname), Write(AdminUsername, s.adminUsername),
             Write(AdminGroup, s.adminGroup), Write(SshPrivateKeyPath, s.sshPrivateKeyPath)])
  }

  function HermesEffect(s: WizardState, w: World, apiKeyBefore: string): Outcome {
    var tagged := s.(agentReleaseTag := w.releaseTag);
    if s.authMethod == "api_key" then
      var key := if s.apiKeyInput != "" then s.apiKeyInput else apiKeyBefore;
      if !IsPresent(key) || (w.artifactPresent && !w.artifactRemovable) then Raised
      else Sets(tagged, [Write(AgentReleaseTag, w.releaseTag)]
                        + WriteIf(s.apiKeyInput != "", HermesApiKey, s.apiKeyInput))
    else if w.artifactPresent || (w.localAuth && w.artifactCaptured) then
      Sets(tagged, [Write(AgentReleaseTag, w.releaseTag)] + [Write(HermesApiKey, "")])
    else Raised
  }

  function TelegramEffect(s: WizardState, botTokenBefore: string): Outcome {
    Sets(s, [Write(TelegramAllowlistIds, s.allowlistIds)]
            + WriteIf(s.botTokenReplace || !IsPresent(botTokenBefore), TelegramBotToken, s.botTokenInput))
  }

  function ExtrasEffect(s: WizardState): Outcome {
    Sets(s, [Write(AgentVersion, s.agentVersion), Write(HermesProvider, s.hermesProvider),
             Write(HermesModel, s.hermesModel)])
  }

  function SshEffect(s: WizardState, w: World): Outcome {
    match w.sshKey
    case None => Raised
    case Some(key) =>
      Sets(s.(sshPrivateKeyPath := key.path),
           [Write(SshPrivateKeyPath, key.path), Entry(PUBLIC_KEY, "\"" + key.publicKey + "\"")])
  }

  datatype Effect =
    | PersistCloud | PersistServer | PersistHermes | PersistTelegram
    | StageTheExtras | EnsureKey | ReconcileAlias | FlushEnv | UnknownEffect

  function EffectNamed(name: string): Effect {
    if name == "persist_cloud" then PersistCloud
    else if name == "persist_server" then PersistServer
    else if name == "persist_hermes" then PersistHermes
    else if name == "persist_telegram" then PersistTelegram
    else if name == "stage_extras" then StageTheExtras
    else if name == "ensure_ssh_key" then EnsureKey
    else if name == "reconcile_ssh_alias" then ReconcileAlias
    else if name == "flush_env" then FlushEnv
    else UnknownEffect
  }

  /** The outcome of an effect over the staged values d and the file text t. */
  function OutcomeOf(effect: Effect, s: WizardState, w: World, t: string, d: seq<Entry>): Outcome {
    match effect
    case PersistCloud => CloudEffect(s, Seen(t, d, TokenKey(s.provider)))
    case PersistServer => ServerEffect(s)
    case PersistHermes => HermesEffect(s, w, Seen(t, d, HermesApiKey))
    case PersistTelegram => TelegramEffect(s, Seen(t, d, TelegramBotToken))
    case StageTheExtras => ExtrasEffect(s)
    case EnsureKey => SshEffect(s, w)
    case ReconcileAlias => if w.aliasOk then Sets(s, []) else Raised
    case FlushEnv => Raised
    case UnknownEffect => Raised
  }

  function EffectOutcome(name: string, s: WizardState, w: World, t: string, d: seq<Entry>): Outcome {
    OutcomeOf(EffectNamed(name), s, w, t, d)
  }

  /** What a known key shows through the staged values. */
  function Seen(t: string, d: seq<Entry>, k: EnvKey): string {
    Overlay(t, d, Name(k))
  }

  // Staging a list of writes.

  function StageOne(t: string, d: seq<Entry>, e: Entry): seq<Entry> {
    if !Has(d, e.key) && GetValue(t, e.key) == e.value then d else Put(d, e.key, e.value)
  }

  function StageAll(t: string, d: seq<Entry>, writes: seq<Entry>): seq<Entry> {
    if writes == [] then d
    else StageOne(t, StageAll(t, d, writes[..|writes| - 1]), writes[|writes| - 1])
  }

  /** The last value written for a key, or what it read before. */
  function Laid(writes: seq<Entry>, key: string, before: string): string {
    if writes == [] then before
    else if writes[|writes| - 1].key == key then writes[|writes| - 1].value
    else Laid(writes[..|writes| - 1], key, before)
  }

  lemma StageSnoc(t: string, d: seq<Entry>, writes: seq<Entry>, e: Entry)
    ensures StageAll(t, d, writes + [e]) == StageOne(t, StageAll(t, d, writes), e)
  {
    assert (writes + [e])[..|writes|] == writes;
  }

  lemma {:induction false} StageConcat(t: string, d: seq<Entry>, a: seq<Entry>, b: seq<Entry>)
    ensures StageAll(t, d, a + b) == StageAll(t, StageAll(t, d, a), b)
  {
    if b == [] {
      assert a + b == a;
    } else {
      var c, e := b[..|b| - 1], b[|b| - 1];
      assert a + b == (a + c) + [e];
      StageConcat(t, d, a, c);
      StageSnoc(t, d, a + c, e);
    }
  }

  lemma {:induction false} LaidConcat(a: seq<Entry>, b: seq<Entry>, key: string, before: string)
    ensures Laid(a + b, key, before) == Laid(b, key, Laid(a, key, before))
  {
    if b == [] {
      assert a + b == a;
    } else {
      assert (a + b)[..|a + b| - 1] == a + b[..|b| - 1];
      LaidConcat(a, b[..|b| - 1], key, before);
    }
  }

  /** Through the staged values every key shows the last value written, or what it showed. */
  lemma {:induction false} StagedShowsWrites(t: string, d: seq<Entry>, writes: seq<Entry>, key: string)
    ensures Overlay(t, StageAll(t, d, writes), key) == Laid(writes, key, Overlay(t, d, key))
  {
    if writes == [] {
    } else {
      var front, e := writes[..|writes| - 1], writes[|writes| - 1];
      StagedShowsWrites(t, d, front, key);
      PutAt(StageAll(t, d, front), e.key, e.value, key);
    }
  }

  ghost predicate WritesStorable(t: string, writes: seq<Entry>) {
    forall e :: e in writes ==> Storable(t, e.key, e.value)
  }

  lemma {:induction false} StagedElements(t: string, d: seq<Entry>, writes: seq<Entry>)
    requires Distinct(d)
    ensures Distinct(StageAll(t, d, writes))
    ensures forall e :: e in StageAll(t, d, writes) ==> e in d || e in writes
  {
    if writes == [] {
    } else {
      var front, e := writes[..|writes| - 1], writes[|writes| - 1];
      assert writes == front + [e];
      StagedElements(t, d, front);
      PutDistinct(StageAll(t, d, front), e.key, e.value);
      PutElements(StageAll(t, d, front), e.key, e.value);
    }
  }

  /** The outcome of a list of effects without a commit. */
  function PlanOutcome(effects: seq<string>, s: WizardState, w: World, t: string, d: seq<Entry>): Outcome {
    if effects == [] then Sets(s, [])
    else
      match PlanOutcome(effects[..|effects| - 1], s, w, t, d)
      case Raised => Raised
      case Sets(s1, ws1) =>
        match EffectOutcome(effects[|effects| - 1], s1, w, t, StageAll(t, d, ws1))
        case Raised => Raised
        case Sets(s2, ws2) => Sets(s2, ws1 + ws2)
  }

  lemma PublicKeyIsGood()
    ensures GoodKey(PUBLIC_KEY)
  {
    assert NameChars(PUBLIC_KEY);
    NameCharsAreGood(PUBLIC_KEY);
  }

  /** Everything that ends up staged can be stored in the file. */
  ghost predicate PlanStorable(t: string, d: seq<Entry>, writes: seq<Entry>) {
    AllStorable(t, StageAll(t, d, writes))
  }

  /** after reads for every key the last value written, or what t and d showed. */
  ghost predicate ReadsLaid(after: string, writes: seq<Entry>, t: string, d: seq<Entry>) {
    forall key :: GoodKey(key) ==> GetValue(after, key) == Laid(writes, key, Overlay(t, d, key))
  }

  /** It is enough that everything staged before or written now can be stored. */
  lemma WritesAreEnough(t: string, d: seq<Entry>, writes: seq<Entry>)
    requires Distinct(d) && AllStorable(t, d) && WritesStorable(t, writes)
    ensures PlanStorable(t, d, writes)
  {
    StagedElements(t, d, writes);
  }

  /** The outcome of the fixed effects before the commit. */
  function ApplyOutcome(s: WizardState, w: World, t: string, d: seq<Entry>): Outcome {
    PlanOutcome(APPLY_EFFECT_ORDER[..7], s, w, t, d)
  }

  lemma CommitIsLast()
    ensures APPLY_EFFECT_ORDER[7] == "flush_env" && "flush_env" !in APPLY_EFFECT_ORDER[..7]
  {
    assert "flush_env"[0] == 'f';
    assert forall i :: 0 <= i < 7 ==> APPLY_EFFECT_ORDER[i][0] != 'f';
  }

  lemma TokenIsOther(provider: string)
    ensures Name(TokenKey(provider)) != Name(CloudProviderKey) && Name(TokenKey(provider)) != Name(ServerImage)
  {
    hide Name;
    SameName(TokenKey(provider), CloudProviderKey);
    SameName(TokenKey(provider), ServerImage);
  }

  lemma OtherKeysShow(t: string, d: seq<Entry>, writes: seq<Entry>, k: EnvKey)
    requires forall e :: e in writes ==> e.key != Name(k)
    ensures Seen(t, StageAll(t, d, writes), k) == Seen(t, d, k)
  {
    StagedShowsWrites(t, d, writes, Name(k));
    NotWritten(writes, Name(k), Overlay(t, d, Name(k)));
  }

  lemma LastWriteShows(t: string, d: seq<Entry>, writes: seq<Entry>, k: EnvKey, value: string)
    ensures Seen(t, StageAll(t, d, writes + [Write(k, value)]), k) == value
  {
    StagedShowsWrites(t, d, writes + [Write(k, value)], Name(k));
  }

  lemma {:induction false} NotWritten(writes: seq<Entry>, key: string, before: string)
    requires forall e :: e in writes ==> e.key != key
    ensures Laid(writes, key, before) == before
  {
    if writes == [] {
    } else {
      NotWritten(writes[..|writes| - 1], key, before);
    }
  }

  lemma PlanStep(effects: seq<string>, s: WizardState, w: World, t: string, d: seq<Entry>, i: nat)
    requires i < |effects| && PlanOutcome(effects[..i], s, w, t, d).Sets?
    ensures var o := PlanOutcome(effects[..i], s, w, t, d);
      PlanOutcome(effects[..i + 1], s, w, t, d) ==
        match EffectOutcome(effects[i], o.state, w, t, StageAll(t, d, o.writes))
        case Raised => Raised
        case Sets(s2, ws2) => Sets(s2, o.writes + ws2)
  {
    assert effects[..i + 1][..i] == effects[..i];
  }

  lemma {:induction false} PlanStops(effects: seq<string>, s: WizardState, w: World, t: string, d: seq<Entry>, n: nat)
    requires n <= |effects| && PlanOutcome(effects[..n], s, w, t, d).Raised?
    ensures PlanOutcome(effects, s, w, t, d).Raised?
  {
    if n < |effects| {
      assert effects[..|effects| - 1][..n] == effects[..n];
      PlanStops(effects[..|effects| - 1], s, w, t, d, n);
    } else {
      assert effects[..n] == effects;
    }
  }
}
