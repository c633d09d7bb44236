/** What the .env file reads, key by key, once the whole apply pipeline has succeeded. */
module ApplyValues {
  import opened EnvText
  import opened EnvOverlay
  import opened ConfigModel
  import opened ApplyEffects

  /** The value each known key is to have; before is what it showed when the pipeline started. */
  function Applied(s: WizardState, w: World, k: EnvKey, before: string): string
    requires w.sshKey.Some?
  {
    match k
    case CloudProviderKey => s.provider
    case ServerImage => if s.provider == "linode" then "linode/debian13" else "debian-13"
    case HcloudToken =>
      if s.provider == "hetzner" && (s.tokenReplace || before == "" || before == "***") then s.tokenInput else before
    case LinodeToken =>
      if s.provider != "hetzner" && (s.tokenReplace || before == "" || before == "***") then s.tokenInput else before
    case ServerLocation => s.location
    case ServerType => s.serverType
    case Hostname => s.hostname
    case AdminUsername => s.adminUsername
    case AdminGroup => s.adminGroup
    case SshPrivateKeyPath => w.sshKey.value.path
    case SshPort => before
    case HermesProvider => s.hermesProvider
    case HermesModel => s.hermesModel
    case AgentVersion => s.agentVersion
    case AgentReleaseTag => w.releaseTag
    case HermesApiKey =>
      if s.authMethod != "api_key" then "" else if s.apiKeyInput != "" then s.apiKeyInput else before
    case TelegramBotToken => if s.botTokenReplace || before == "" || before == "***" then s.botTokenInput else before
    case TelegramAllowlistIds => s.allowlistIds
    case TelegramPollTimeout => before
  }

  lemma LaidPush(writes: seq<Entry>, k: EnvKey, value: string, key: EnvKey, before: string)
    ensures Laid(writes + [Write(k, value)], Name(key), before) ==
      if k == key then value else Laid(writes, Name(key), before)
  {
    hide Name;
    assert (writes + [Write(k, value)])[..|writes|] == writes;
    SameName(k, key);
  }

  lemma LaidPushIf(writes: seq<Entry>, c: bool, k: EnvKey, value: string, key: EnvKey, before: string)
    ensures Laid(writes + WriteIf(c, k, value), Name(key), before) ==
      if c && k == key then value else Laid(writes, Name(key), before)
  {
    hide Name;
    if c {
      LaidPush(writes, k, value, key, before);
    } else {
      assert writes + [] == writes;
    }
  }

  lemma LaidPair(a: EnvKey, x: string, b: EnvKey, y: string, key: EnvKey, before: string)
    ensures Laid([Write(a, x), Write(b, y)], Name(key), before) ==
      if b == key then y else if a == key then x else before
  {
    hide Name;
    LaidPush([], a, x, key, before);
    LaidPush([Write(a, x)], b, y, key, before);
    assert [] + [Write(a, x)] == [Write(a, x)];
    assert [Write(a, x)] + [Write(b, y)] == [Write(a, x), Write(b, y)];
  }

  lemma CloudLaid(s: WizardState, seen: string, key: EnvKey, before: string)
    requires CloudEffect(s, seen).Sets?
    ensures Laid(CloudEffect(s, seen).writes, Name(key), before) ==
      if key == TokenKey(s.provider) && (s.tokenReplace || !IsPresent(seen)) then s.tokenInput
      else if key == ServerImage then (if s.provider == "linode" then "linode/debian13" else "debian-13")
      else if key == CloudProviderKey then s.provider
      else before
  {
    hide Name;
    var image := if s.provider == "linode" then "linode/debian13" else "debian-13";
    var pair := [Write(CloudProviderKey, s.provider), Write(ServerImage, image)];
    LaidPair(CloudProviderKey, s.provider, ServerImage, image, key, before);
    LaidPushIf(pair, s.tokenReplace || !IsPresent(seen), TokenKey(s.provider), s.tokenInput, key, before);
  }

  lemma ServerLaid(s: WizardState, key: EnvKey, before: string)
    ensures Laid(ServerEffect(s).writes, Name(key), before) ==
      if key == SshPrivateKeyPath then s.sshPrivateKeyPath
      else if key == AdminGroup then s.adminGroup
      else if key == AdminUsername then s.adminUsername
      else if key == Hostname then s.hostname
      else if key == ServerType then s.serverType
      else if key == ServerLocation then s.location
      else before
  {
    hide Name;
    var a := [Write(ServerLocation, s.location), Write(ServerType, s.serverType)];
    var b := [Write(Hostname, s.hostname), Write(AdminUsername, s.adminUsername)];
    var c := [Write(AdminGroup, s.adminGroup), Write(SshPrivateKeyPath, s.sshPrivateKeyPath)];
    assert ServerEffect(s).writes == a + b + c;
    LaidConcat(a + b, c, Name(key), before);
    LaidConcat(a, b, Name(key), before);
    var afterA := Laid(a, Name(key), before);
    var afterB := Laid(b, Name(key), afterA);
    LaidPair(ServerLocation, s.location, ServerType, s.serverType, key, before);
    LaidPair(Hostname, s.hostname, AdminUsername, s.adminUsername, key, afterA);
    LaidPair(AdminGroup, s.adminGroup, SshPrivateKeyPath, s.sshPrivateKeyPath, key, afterB);
  }

  lemma HermesLaid(s: WizardState, w: World, seen: string, key: EnvKey, before: string)
    requires HermesEffect(s, w, seen).Sets?
    ensures Laid(HermesEffect(s, w, seen).writes, Name(key), before) ==
      if key == HermesApiKey && s.authMethod != "api_key" then ""
      else if key == HermesApiKey && s.apiKeyInput != "" then s.apiKeyInput
      else if key == AgentReleaseTag then w.releaseTag
      else before
  {
    hide Name;
    var tag := [Write(AgentReleaseTag, w.releaseTag)];
    LaidPush([], AgentReleaseTag, w.releaseTag, key, before);
    assert [] + tag == tag;
    LaidPushIf(tag, s.apiKeyInput != "", HermesApiKey, s.apiKeyInput, key, before);
    LaidPush(tag, HermesApiKey, "", key, before);
  }

  lemma TelegramLaid(s: WizardState, seen: string, key: EnvKey, before: string)
    ensures Laid(TelegramEffect(s, seen).writes, Name(key), before) ==
      if key == TelegramBotToken && (s.botTokenReplace || !IsPresent(seen)) then s.botTokenInput
      else if key == TelegramAllowlistIds then s.allowlistIds
      else before
  {
    hide Name;
    var ids := [Write(TelegramAllowlistIds, s.allowlistIds)];
    LaidPush([], TelegramAllowlistIds, s.allowlistIds, key, before);
    assert [] + ids == ids;
    LaidPushIf(ids, s.botTokenReplace || !IsPresent(seen), TelegramBotToken, s.botTokenInput, key, before);
  }

  lemma ExtrasLaid(s: WizardState, key: EnvKey, before: string)
    ensures Laid(ExtrasEffect(s).writes, Name(key), before) ==
      if key == HermesModel then s.hermesModel
      else if key == HermesProvider then s.hermesProvider
      else if key == AgentVersion then s.agentVersion
      else before
  {
    hide Name;
    var pair := [Write(AgentVersion, s.agentVersion), Write(HermesProvider, s.hermesProvider)];
    LaidPair(AgentVersion, s.agentVersion, HermesProvider, s.hermesProvider, key, before);
    LaidPush(pair, HermesModel, s.hermesModel, key, before);
    assert pair + [Write(HermesModel, s.hermesModel)] == ExtrasEffect(s).writes;
  }

  lemma PublicKeyIsOther(k: EnvKey)
    ensures Name(k) != PUBLIC_KEY
  {
    hide Name;
    NameIsUnique(k);
    assert KeyNamed(PUBLIC_KEY).None?;
  }

  /** The key path and the quoted public key. */
  lemma SshLaid(s: WizardState, w: World, key: string, before: string)
    requires SshEffect(s, w).Sets?
    ensures Laid(SshEffect(s, w).writes, key, before) ==
      if key == PUBLIC_KEY then "\"" + w.sshKey.value.publicKey + "\""
      else if key == Name(SshPrivateKeyPath) then w.sshKey.value.path
      else before
  {
    hide Name;
    var path := [Write(SshPrivateKeyPath, w.sshKey.value.path)];
    var public := Entry(PUBLIC_KEY, "\"" + w.sshKey.value.publicKey + "\"");
    assert SshEffect(s, w).writes == path + [public];
    assert (path + [public])[..1] == path && path[..0] == [];
    assert Laid(path, key, before) == if key == Name(SshPrivateKeyPath) then w.sshKey.value.path else before;
  }

  /** The outcome of the first i effects of the pipeline. */
  function Upto(s: WizardState, w: World, t: string, d: seq<Entry>, i: nat): Outcome
    requires i <= 7
  {
    PlanOutcome(APPLY_EFFECT_ORDER[..i], s, w, t, d)
  }

  /** The effects in their fixed order. */
  const PIPELINE: seq<Effect> :=
    [PersistCloud, PersistServer, PersistHermes, PersistTelegram, StageTheExtras, EnsureKey, ReconcileAlias]

  lemma OrderNames()
    ensures forall i :: 0 <= i < 7 ==> EffectNamed(APPLY_EFFECT_ORDER[i]) == PIPELINE[i]
  {
  }

  /** What the i-th effect sees and does. */
  function StepOutcome(s: WizardState, w: World, t: string, d: seq<Entry>, i: nat): Outcome
    requires i < 7 && Upto(s, w, t, d, i).Sets?
  {
    var o := Upto(s, w, t, d, i);
    OutcomeOf(PIPELINE[i], o.state, w, t, StageAll(t, d, o.writes))
  }

  lemma PipelineStep(s: WizardState, w: World, t: string, d: seq<Entry>, i: nat)
    requires i < 7 && Upto(s, w, t, d, i + 1).Sets?
    ensures Upto(s, w, t, d, i).Sets? && StepOutcome(s, w, t, d, i).Sets?
    ensures Upto(s, w, t, d, i + 1) ==
      Sets(StepOutcome(s, w, t, d, i).state, Upto(s, w, t, d, i).writes + StepOutcome(s, w, t, d, i).writes)
  {
    hide EffectNamed;
    assert APPLY_EFFECT_ORDER[..i + 1][..i] == APPLY_EFFECT_ORDER[..i];
    PlanStep(APPLY_EFFECT_ORDER, s, w, t, d, i);
    OrderNames();
  }

  /** What a key shows after the first i effects. */
  ghost function ShownAfter(s: WizardState, w: World, t: string, d: seq<Entry>, i: nat, key: string): string
    requires i <= 7 && Upto(s, w, t, d, i).Sets?
  {
    Laid(Upto(s, w, t, d, i).writes, key, Overlay(t, d, key))
  }

  lemma ShownStep(s: WizardState, w: World, t: string, d: seq<Entry>, i: nat, key: string)
    requires i < 7 && Upto(s, w, t, d, i + 1).Sets?
    ensures Upto(s, w, t, d, i).Sets? && StepOutcome(s, w, t, d, i).Sets?
    ensures ShownAfter(s, w, t, d, i + 1, key) ==
            Laid(StepOutcome(s, w, t, d, i).writes, key, ShownAfter(s, w, t, d, i, key))
  {
    hide Upto;
    hide StepOutcome;
    hide EffectNamed;
    PipelineStep(s, w, t, d, i);
    LaidConcat(Upto(s, w, t, d, i).writes, StepOutcome(s, w, t, d, i).writes, key, Overlay(t, d, key));
  }

  lemma NothingShown(s: WizardState, w: World, t: string, d: seq<Entry>, key: string)
    ensures Upto(s, w, t, d, 0) == Sets(s, []) && ShownAfter(s, w, t, d, 0, key) == Overlay(t, d, key)
  {
  }

  /** Equal but for the fields the effects fill in. */
  predicate SameInputs(a: WizardState, b: WizardState) {
    a.(serverImage := "", agentReleaseTag := "") == b.(serverImage := "", agentReleaseTag := "")
  }

  /** An effect before the key step leaves the inputs as they are. */
  lemma EffectKeepsInputs(effect: Effect, s: WizardState, w: World, t: string, d: seq<Entry>)
    requires OutcomeOf(effect, s, w, t, d).Sets? && !effect.EnsureKey?
    ensures SameInputs(OutcomeOf(effect, s, w, t, d).state, s)
  {
    hide Name;
  }

  lemma {:induction false} InputsStay(s: WizardState, w: World, t: string, d: seq<Entry>, i: nat)
    requires i <= 5 && Upto(s, w, t, d, i).Sets?
    ensures SameInputs(Upto(s, w, t, d, i).state, s)
  {
    if i == 0 {
    } else {
      hide Upto;
      hide OutcomeOf;
      PipelineStep(s, w, t, d, i - 1);
      InputsStay(s, w, t, d, i - 1);
      var o := Upto(s, w, t, d, i - 1);
      assert PIPELINE[i - 1] != EnsureKey;
      EffectKeepsInputs(PIPELINE[i - 1], o.state, w, t, StageAll(t, d, o.writes));
    }
  }

  lemma AfterCloud(s: WizardState, w: World, t: string, d: seq<Entry>, k: EnvKey)
    requires Upto(s, w, t, d, 1).Sets?
    ensures ShownAfter(s, w, t, d, 1, Name(k)) ==
      if k == TokenKey(s.provider) && (s.tokenReplace || !IsPresent(Seen(t, d, k))) then s.tokenInput
      else if k == ServerImage then (if s.provider == "linode" then "linode/debian13" else "debian-13")
      else if k == CloudProviderKey then s.provider
      else Seen(t, d, k)
  {
    hide Name;
    hide Upto;
    hide Laid;
    hide ShownAfter;
    NothingShown(s, w, t, d, Name(k));
    ShownStep(s, w, t, d, 0, Name(k));
    CloudLaid(s, Seen(t, d, TokenKey(s.provider)), k, Seen(t, d, k));
  }

  lemma AfterServer(s: WizardState, w: World, t: string, d: seq<Entry>, k: EnvKey)
    requires Upto(s, w, t, d, 2).Sets?
    ensures Upto(s, w, t, d, 1).Sets?
    ensures ShownAfter(s, w, t, d, 2, Name(k)) ==
      if k == SshPrivateKeyPath then s.sshPrivateKeyPath
      else if k == AdminGroup then s.adminGroup
      else if k == AdminUsername then s.adminUsername
      else if k == Hostname then s.hostname
      else if k == ServerType then s.serverType
      else if k == ServerLocation then s.location
      else ShownAfter(s, w, t, d, 1, Name(k))
  {
    hide Name;
    hide Upto;
    hide Laid;
    hide ShownAfter;
    ShownStep(s, w, t, d, 1, Name(k));
    InputsStay(s, w, t, d, 1);
    ServerLaid(Upto(s, w, t, d, 1).state, k, ShownAfter(s, w, t, d, 1, Name(k)));
  }

  lemma AfterHermes(s: WizardState, w: World, t: string, d: seq<Entry>, k: EnvKey)
    requires Upto(s, w, t, d, 3).Sets?
    ensures Upto(s, w, t, d, 2).Sets?
    ensures ShownAfter(s, w, t, d, 3, Name(k)) ==
      if k == HermesApiKey && s.authMethod != "api_key" then ""
      else if k == HermesApiKey && s.apiKeyInput != "" then s.apiKeyInput
      else if k == AgentReleaseTag then w.releaseTag
      else ShownAfter(s, w, t, d, 2, Name(k))
  {
    hide Name;
    hide Upto;
    hide Laid;
    hide ShownAfter;
    ShownStep(s, w, t, d, 2, Name(k));
    InputsStay(s, w, t, d, 2);
    var o := Upto(s, w, t, d, 2);
    HermesLaid(o.state, w, Seen(t, StageAll(t, d, o.writes), HermesApiKey), k, ShownAfter(s, w, t, d, 2, Name(k)));
  }

  lemma AfterTelegram(s: WizardState, w: World, t: string, d: seq<Entry>, k: EnvKey)
    requires Upto(s, w, t, d, 4).Sets?
    ensures Upto(s, w, t, d, 3).Sets?
    ensures ShownAfter(s, w, t, d, 4, Name(k)) ==
      if k == TelegramBotToken && (s.botTokenReplace || !IsPresent(Seen(t, d, k))) then s.botTokenInput
      else if k == TelegramAllowlistIds then s.allowlistIds
      else ShownAfter(s, w, t, d, 3, Name(k))
  {
    hide Name;
    hide Upto;
    hide Laid;
    hide ShownAfter;
    ShownStep(s, w, t, d, 3, Name(k));
    InputsStay(s, w, t, d, 3);
    BotTokenUntouched(s, w, t, d);
    TelegramLaid(Upto(s, w, t, d, 3).state, Seen(t, d, TelegramBotToken), k, ShownAfter(s, w, t, d, 3, Name(k)));
  }

  /** The bot token still shows its old value when the Telegram step looks at it. */
  lemma BotTokenUntouched(s: WizardState, w: World, t: string, d: seq<Entry>)
    requires Upto(s, w, t, d, 3).Sets?
    ensures Seen(t, StageAll(t, d, Upto(s, w, t, d, 3).writes), TelegramBotToken) == Seen(t, d, TelegramBotToken)
  {
    hide Name;
    hide Upto;
    hide Laid;
    StagedShowsWrites(t, d, Upto(s, w, t, d, 3).writes, Name(TelegramBotToken));
    AfterHermes(s, w, t, d, TelegramBotToken);
    AfterServer(s, w, t, d, TelegramBotToken);
    AfterCloud(s, w, t, d, TelegramBotToken);
  }

  lemma AfterExtras(s: WizardState, w: World, t: string, d: seq<Entry>, k: EnvKey)
    requires Upto(s, w, t, d, 5).Sets?
    ensures Upto(s, w, t, d, 4).Sets?
    ensures ShownAfter(s, w, t, d, 5, Name(k)) ==
      if k == HermesModel then s.hermesModel
      else if k == HermesProvider then s.hermesProvider
      else if k == AgentVersion then s.agentVersion
      else ShownAfter(s, w, t, d, 4, Name(k))
  {
    hide Name;
    hide Upto;
    hide Laid;
    hide ShownAfter;
    ShownStep(s, w, t, d, 4, Name(k));
    InputsStay(s, w, t, d, 4);
    ExtrasLaid(Upto(s, w, t, d, 4).state, k, ShownAfter(s, w, t, d, 4, Name(k)));
  }

  /** The last two effects: the ensured key pair, then nothing more. */
  lemma AfterSsh(s: WizardState, w: World, t: string, d: seq<Entry>, key: string)
    requires Upto(s, w, t, d, 7).Sets?
    ensures Upto(s, w, t, d, 5).Sets? && w.sshKey.Some?
    ensures ShownAfter(s, w, t, d, 7, key) ==
      if key == PUBLIC_KEY then "\"" + w.sshKey.value.publicKey + "\""
      else if key == Name(SshPrivateKeyPath) then w.sshKey.value.path
      else ShownAfter(s, w, t, d, 5, key)
  {
    hide Name;
    hide Upto;
    hide ShownAfter;
    ShownStep(s, w, t, d, 6, key);
    ShownStep(s, w, t, d, 5, key);
    SshLaid(Upto(s, w, t, d, 5).state, w, key, ShownAfter(s, w, t, d, 5, key));
  }

  /** The values known after the server step; the path of the key pair is replaced later. */
  lemma AppliedByServer(s: WizardState, w: World, t: string, d: seq<Entry>, k: EnvKey)
    requires Upto(s, w, t, d, 2).Sets? && w.sshKey.Some?
    requires !k.AgentReleaseTag? && !k.HermesApiKey? && !k.TelegramBotToken? && !k.TelegramAllowlistIds?
    requires !k.HermesModel? && !k.HermesProvider? && !k.AgentVersion? && !k.SshPrivateKeyPath?
    ensures ShownAfter(s, w, t, d, 2, Name(k)) == Applied(s, w, k, Seen(t, d, k))
  {
    hide Name;
    hide Upto;
    hide ShownAfter;
    AfterServer(s, w, t, d, k);
    AfterCloud(s, w, t, d, k);
  }

  /** Until the Hermes and the Telegram step, their keys show what they showed. */
  lemma LaterKeysUntouched(s: WizardState, w: World, t: string, d: seq<Entry>, k: EnvKey)
    requires Upto(s, w, t, d, 2).Sets?
    requires k.AgentReleaseTag? || k.HermesApiKey? || k.TelegramBotToken? || k.TelegramAllowlistIds?
    ensures ShownAfter(s, w, t, d, 2, Name(k)) == Seen(t, d, k)
  {
    hide Name;
    hide Upto;
    hide ShownAfter;
    AfterServer(s, w, t, d, k);
    AfterCloud(s, w, t, d, k);
  }

  lemma AppliedByTelegram(s: WizardState, w: World, t: string, d: seq<Entry>, k: EnvKey)
    requires Upto(s, w, t, d, 4).Sets? && w.sshKey.Some?
    requires !k.HermesModel? && !k.HermesProvider? && !k.AgentVersion? && !k.SshPrivateKeyPath?
    ensures ShownAfter(s, w, t, d, 4, Name(k)) == Applied(s, w, k, Seen(t, d, k))
  {
    hide Name;
    hide Upto;
    hide ShownAfter;
    AfterTelegram(s, w, t, d, k);
    AfterHermes(s, w, t, d, k);
    if k.AgentReleaseTag? || k.HermesApiKey? || k.TelegramBotToken? || k.TelegramAllowlistIds? {
      LaterKeysUntouched(s, w, t, d, k);
    } else {
      AppliedByServer(s, w, t, d, k);
    }
  }

  lemma AppliedByExtras(s: WizardState, w: World, t: string, d: seq<Entry>, k: EnvKey)
    requires Upto(s, w, t, d, 5).Sets? && w.sshKey.Some? && !k.SshPrivateKeyPath?
    ensures ShownAfter(s, w, t, d, 5, Name(k)) == Applied(s, w, k, Seen(t, d, k))
  {
    hide Name;
    hide Upto;
    hide ShownAfter;
    AfterExtras(s, w, t, d, k);
    if !k.HermesModel? && !k.HermesProvider? && !k.AgentVersion? {
      AppliedByTelegram(s, w, t, d, k);
    }
  }

  /** After the whole pipeline every known key shows its applied value; in particular the SSH
      key path is the one ensured, not the one the server step wrote before. */
  lemma PipelineApplies(s: WizardState, w: World, t: string, d: seq<Entry>, k: EnvKey)
    requires Upto(s, w, t, d, 7).Sets?
    ensures w.sshKey.Some?
    ensures ShownAfter(s, w, t, d, 7, Name(k)) == Applied(s, w, k, Seen(t, d, k))
  {
    hide Name;
    hide Upto;
    hide ShownAfter;
    AfterSsh(s, w, t, d, Name(k));
    PublicKeyIsOther(k);
    SameName(k, SshPrivateKeyPath);
    if !k.SshPrivateKeyPath? {
      AppliedByExtras(s, w, t, d, k);
    }
  }

  /** Every write goes to a known key or to the public key. */
  ghost predicate ManagedOnly(writes: seq<Entry>) {
    forall e :: e in writes ==> Managed(e.key)
  }

  ghost predicate Managed(key: string) {
    key == PUBLIC_KEY || exists k: EnvKey :: Name(k) == key
  }

  lemma CloudManages(s: WizardState, seen: string)
    requires CloudEffect(s, seen).Sets?
    ensures ManagedOnly(CloudEffect(s, seen).writes)
  {
    hide Name;
  }

  lemma ServerManages(s: WizardState)
    ensures ManagedOnly(ServerEffect(s).writes) && ManagedOnly(ExtrasEffect(s).writes)
  {
    hide Name;
  }

  lemma HermesManages(s: WizardState, w: World, seen: string)
    requires HermesEffect(s, w, seen).Sets?
    ensures ManagedOnly(HermesEffect(s, w, seen).writes)
  {
    hide Name;
  }

  lemma OthersManage(s: WizardState, w: World, seen: string)
    ensures ManagedOnly(TelegramEffect(s, seen).writes)
    ensures SshEffect(s, w).Sets? ==> ManagedOnly(SshEffect(s, w).writes)
  {
    hide Name;
  }

  lemma EffectsManage(effect: Effect, s: WizardState, w: World, t: string, d: seq<Entry>)
    requires OutcomeOf(effect, s, w, t, d).Sets?
    ensures ManagedOnly(OutcomeOf(effect, s, w, t, d).writes)
  {
    hide Name;
    hide ManagedOnly;
    match effect
    case PersistCloud => CloudManages(s, Seen(t, d, TokenKey(s.provider)));
    case PersistServer => ServerManages(s);
    case PersistHermes => HermesManages(s, w, Seen(t, d, HermesApiKey));
    case PersistTelegram => OthersManage(s, w, Seen(t, d, TelegramBotToken));
    case StageTheExtras => ServerManages(s);
    case EnsureKey => OthersManage(s, w, "");
    case ReconcileAlias => NothingManaged();
    case _ =>
  }

  lemma NothingManaged()
    ensures ManagedOnly([])
  {
  }

  lemma {:induction false} PlanManages(effects: seq<string>, s: WizardState, w: World, t: string, d: seq<Entry>)
    requires PlanOutcome(effects, s, w, t, d).Sets?
    ensures ManagedOnly(PlanOutcome(effects, s, w, t, d).writes)
  {
    if effects == [] {
    } else {
      var front := effects[..|effects| - 1];
      PlanManages(front, s, w, t, d);
      var o := PlanOutcome(front, s, w, t, d);
      EffectsManage(EffectNamed(effects[|effects| - 1]), o.state, w, t, StageAll(t, d, o.writes));
    }
  }

  /** Keys the pipeline does not manage keep what they showed. */
  lemma UnmanagedUntouched(effects: seq<string>, s: WizardState, w: World, t: string, d: seq<Entry>, key: string, before: string)
    requires PlanOutcome(effects, s, w, t, d).Sets?
    requires !Managed(key)
    ensures Laid(PlanOutcome(effects, s, w, t, d).writes, key, before) == before
  {
    PlanManages(effects, s, w, t, d);
    NotWritten(PlanOutcome(effects, s, w, t, d).writes, key, before);
  }

  /** What after reads when the pipeline has been carried out on t and d: every known key its applied
      value, the public key the quoted key, and any other key what it showed. */
  ghost predicate AppliedTo(after: string, s: WizardState, w: World, t: string, d: seq<Entry>) {
    && w.sshKey.Some?
    && (forall k: EnvKey :: GetValue(after, Name(k)) == Applied(s, w, k, Seen(t, d, k)))
    && GetValue(after, PUBLIC_KEY) == "\"" + w.sshKey.value.publicKey + "\""
    && (forall key :: GoodKey(key) && !Managed(key) ==> GetValue(after, key) == Overlay(t, d, key))
  }

  /** Reading the last value laid for every key is the same as reading the applied values. */
  lemma AppliedIffLaid(after: string, s: WizardState, w: World, t: string, d: seq<Entry>)
    requires Upto(s, w, t, d, 7).Sets?
    ensures w.sshKey.Some?
    ensures AppliedTo(after, s, w, t, d) <==> ReadsLaid(after, Upto(s, w, t, d, 7).writes, t, d)
  {
    hide Name;
    hide Laid;
    hide Applied;
    AfterSsh(s, w, t, d, PUBLIC_KEY);
    PublicKeyIsGood();
    var writes := Upto(s, w, t, d, 7).writes;
    forall k: EnvKey ensures GoodKey(Name(k)) && Laid(writes, Name(k), Seen(t, d, k)) == Applied(s, w, k, Seen(t, d, k)) {
      PipelineApplies(s, w, t, d, k);
      NameIsGood(k);
    }
    forall key | !Managed(key) ensures Laid(writes, key, Overlay(t, d, key)) == Overlay(t, d, key) {
      UnmanagedUntouched(APPLY_EFFECT_ORDER[..7], s, w, t, d, key, Overlay(t, d, key));
    }
    LaidByClass(after, s, w, t, d, writes);
  }

  lemma LaidByClass(after: string, s: WizardState, w: World, t: string, d: seq<Entry>, writes: seq<Entry>)
    requires w.sshKey.Some? && GoodKey(PUBLIC_KEY)
    requires Laid(writes, PUBLIC_KEY, Overlay(t, d, PUBLIC_KEY)) == "\"" + w.sshKey.value.publicKey + "\""
    requires forall k: EnvKey :: GoodKey(Name(k)) && Laid(writes, Name(k), Seen(t, d, k)) == Applied(s, w, k, Seen(t, d, k))
    requires forall key :: !Managed(key) ==> Laid(writes, key, Overlay(t, d, key)) == Overlay(t, d, key)
    ensures AppliedTo(after, s, w, t, d) <==> ReadsLaid(after, writes, t, d)
  {
    hide Name;
    hide Laid;
    hide Applied;
    if AppliedTo(after, s, w, t, d) {
      forall key | GoodKey(key) ensures GetValue(after, key) == Laid(writes, key, Overlay(t, d, key)) {
        if Managed(key) && key != PUBLIC_KEY {
          var k: EnvKey :| Name(k) == key;
          assert Seen(t, d, k) == Overlay(t, d, key);
        }
      }
    }
    if ReadsLaid(after, writes, t, d) {
      forall k: EnvKey ensures GetValue(after, Name(k)) == Applied(s, w, k, Seen(t, d, k)) {
        assert GoodKey(Name(k));
      }
    }
  }

  /** The same by the names in the file: which line holds which field. */
  ghost predicate FileHoldsServer(after: string, s: WizardState, w: World)
    requires w.sshKey.Some?
  {
    && GetValue(after, "TF_VAR_cloud_provider") == s.provider
    && GetValue(after, "TF_VAR_server_image") == (if s.provider == "linode" then "linode/debian13" else "debian-13")
    && GetValue(after, "TF_VAR_server_location") == s.location
    && GetValue(after, "TF_VAR_server_type") == s.serverType
    && GetValue(after, "TF_VAR_hostname") == s.hostname
    && GetValue(after, "TF_VAR_admin_username") == s.adminUsername
    && GetValue(after, "TF_VAR_admin_group") == s.adminGroup
    && GetValue(after, "BOOTSTRAP_SSH_PRIVATE_KEY_PATH") == w.sshKey.value.path
  }

  ghost predicate FileHoldsAgent(after: string, s: WizardState, w: World) {
    && GetValue(after, "HERMES_AGENT_VERSION") == s.agentVersion
    && GetValue(after, "HERMES_AGENT_RELEASE_TAG") == w.releaseTag
    && GetValue(after, "TF_VAR_hermes_provider") == s.hermesProvider
    && GetValue(after, "TF_VAR_hermes_model") == s.hermesModel
    && GetValue(after, "TELEGRAM_ALLOWLIST_IDS") == s.allowlistIds
  }

  ghost predicate FileHoldsSecrets(after: string, s: WizardState) {
    && (s.authMethod != "api_key" ==> GetValue(after, "HERMES_API_KEY") == "")
    && (s.authMethod == "api_key" && s.apiKeyInput != "" ==> GetValue(after, "HERMES_API_KEY") == s.apiKeyInput)
    && (s.botTokenReplace ==> GetValue(after, "TELEGRAM_BOT_TOKEN") == s.botTokenInput)
    && (s.tokenReplace && s.provider == "hetzner" ==> GetValue(after, "HCLOUD_TOKEN") == s.tokenInput)
    && (s.tokenReplace && s.provider != "hetzner" ==> GetValue(after, "LINODE_TOKEN") == s.tokenInput)
  }

  ghost predicate FileHolds(after: string, s: WizardState, w: World) {
    && w.sshKey.Some? && FileHoldsServer(after, s, w) && FileHoldsAgent(after, s, w) && FileHoldsSecrets(after, s)
    && GetValue(after, "TF_VAR_admin_ssh_public_key") == "\"" + w.sshKey.value.publicKey + "\""
  }

  ghost predicate HoldsApplied(after: string, s: WizardState, w: World, t: string, d: seq<Entry>, k: EnvKey)
    requires w.sshKey.Some?
  {
    GetValue(after, Name(k)) == Applied(s, w, k, Seen(t, d, k))
  }

  lemma ServerHeld(after: string, s: WizardState, w: World, t: string, d: seq<Entry>)
    requires w.sshKey.Some? && forall k: EnvKey :: HoldsApplied(after, s, w, t, d, k)
    ensures FileHoldsServer(after, s, w)
  {
    hide GetValue;
    hide Seen;
    assert HoldsApplied(after, s, w, t, d, CloudProviderKey) && HoldsApplied(after, s, w, t, d, ServerImage);
    assert HoldsApplied(after, s, w, t, d, ServerLocation) && HoldsApplied(after, s, w, t, d, ServerType);
    assert HoldsApplied(after, s, w, t, d, Hostname) && HoldsApplied(after, s, w, t, d, AdminUsername);
    assert HoldsApplied(after, s, w, t, d, AdminGroup) && HoldsApplied(after, s, w, t, d, SshPrivateKeyPath);
  }

  lemma AgentHeld(after: string, s: WizardState, w: World, t: string, d: seq<Entry>)
    requires w.sshKey.Some? && forall k: EnvKey :: HoldsApplied(after, s, w, t, d, k)
    ensures FileHoldsAgent(after, s, w)
  {
    hide GetValue;
    hide Seen;
    assert HoldsApplied(after, s, w, t, d, AgentVersion) && HoldsApplied(after, s, w, t, d, AgentReleaseTag);
    assert HoldsApplied(after, s, w, t, d, HermesProvider) && HoldsApplied(after, s, w, t, d, HermesModel);
    assert HoldsApplied(after, s, w, t, d, TelegramAllowlistIds);
  }

  lemma SecretsHeld(after: string, s: WizardState, w: World, t: string, d: seq<Entry>)
    requires w.sshKey.Some? && forall k: EnvKey :: HoldsApplied(after, s, w, t, d, k)
    ensures FileHoldsSecrets(after, s)
  {
    hide GetValue;
    hide Seen;
    assert HoldsApplied(after, s, w, t, d, HermesApiKey) && HoldsApplied(after, s, w, t, d, TelegramBotToken);
    assert HoldsApplied(after, s, w, t, d, HcloudToken) && HoldsApplied(after, s, w, t, d, LinodeToken);
  }

  lemma AppliedMeansHolds(after: string, s: WizardState, w: World, t: string, d: seq<Entry>)
    requires AppliedTo(after, s, w, t, d)
    ensures FileHolds(after, s, w)
  {
    hide GetValue;
    hide Seen;
    hide Applied;
    hide Name;
    hide Overlay;
    hide FileHoldsServer;
    hide FileHoldsAgent;
    hide FileHoldsSecrets;
    assert forall k: EnvKey :: HoldsApplied(after, s, w, t, d, k);
    ServerHeld(after, s, w, t, d);
    AgentHeld(after, s, w, t, d);
    SecretsHeld(after, s, w, t, d);
  }

  // ---------------------------------------------------------------------------
  // When the pipeline raises before the commit, and what it leaves in the wizard's state.

  /** What makes the pipeline raise, in terms of the wizard's state, of what lies outside and of the
      API key shown at the start: an unknown provider; API key authentication without a real key, or
      with an OAuth artifact that cannot be removed; OAuth without an artifact that is there or can be
      captured; no key pair; an SSH alias that cannot be reconciled. */
  predicate CannotApply(s: WizardState, w: World, shownKey: string) {
    || (s.provider != "hetzner" && s.provider != "linode")
    || (s.authMethod == "api_key" && s.apiKeyInput == "***")
    || (s.authMethod == "api_key" && s.apiKeyInput == "" && (shownKey == "" || shownKey == "***"))
    || (s.authMethod == "api_key" && w.artifactPresent && !w.artifactRemovable)
    || (s.authMethod != "api_key" && !w.artifactPresent && !(w.localAuth && w.artifactCaptured))
    || w.sshKey.None?
    || !w.aliasOk
  }

  lemma Continues(s: WizardState, w: World, t: string, d: seq<Entry>, i: nat)
    requires i < 7
    ensures Upto(s, w, t, d, i + 1).Sets? <==> Upto(s, w, t, d, i).Sets? && StepOutcome(s, w, t, d, i).Sets?
  {
    hide EffectNamed;
    hide OutcomeOf;
    if Upto(s, w, t, d, i + 1).Sets? {
      PipelineStep(s, w, t, d, i);
    } else if Upto(s, w, t, d, i).Sets? {
      PlanStep(APPLY_EFFECT_ORDER, s, w, t, d, i);
      OrderNames();
    }
  }

  /** Until the Hermes step the API key shows what it showed. */
  lemma ApiKeyUntouched(s: WizardState, w: World, t: string, d: seq<Entry>)
    requires Upto(s, w, t, d, 2).Sets?
    ensures Seen(t, StageAll(t, d, Upto(s, w, t, d, 2).writes), HermesApiKey) == Seen(t, d, HermesApiKey)
  {
    hide Name;
    hide Upto;
    hide Laid;
    StagedShowsWrites(t, d, Upto(s, w, t, d, 2).writes, Name(HermesApiKey));
    LaterKeysUntouched(s, w, t, d, HermesApiKey);
  }

  lemma FirstStepsRaise(s: WizardState, w: World, t: string, d: seq<Entry>)
    ensures Upto(s, w, t, d, 2).Sets? <==> s.provider == "hetzner" || s.provider == "linode"
  {
    hide Name;
    hide Upto;
    NothingShown(s, w, t, d, "");
    Continues(s, w, t, d, 0);
    Continues(s, w, t, d, 1);
  }

  lemma HermesRaises(s: WizardState, w: World, t: string, d: seq<Entry>)
    requires Upto(s, w, t, d, 2).Sets?
    ensures Upto(s, w, t, d, 3).Sets? <==>
      if s.authMethod == "api_key"
      then (s.apiKeyInput != "" || Seen(t, d, HermesApiKey) !in ["", "***"]) && s.apiKeyInput != "***"
           && (w.artifactPresent ==> w.artifactRemovable)
      else w.artifactPresent || (w.localAuth && w.artifactCaptured)
  {
    hide Name;
    hide Upto;
    hide Seen;
    Continues(s, w, t, d, 2);
    InputsStay(s, w, t, d, 2);
    ApiKeyUntouched(s, w, t, d);
  }

  lemma LastStepsRaise(s: WizardState, w: World, t: string, d: seq<Entry>)
    ensures Upto(s, w, t, d, 7).Sets? <==> Upto(s, w, t, d, 3).Sets? && w.sshKey.Some? && w.aliasOk
  {
    hide Name;
    hide Upto;
    hide Seen;
    Continues(s, w, t, d, 3);
    Continues(s, w, t, d, 4);
    Continues(s, w, t, d, 5);
    Continues(s, w, t, d, 6);
  }

  /** The pipeline raises before the commit exactly for one of these reasons. */
  lemma RaisesExactly(s: WizardState, w: World, t: string, d: seq<Entry>)
    ensures ApplyOutcome(s, w, t, d).Raised? <==> CannotApply(s, w, Overlay(t, d, "HERMES_API_KEY"))
  {
    hide Upto;
    assert ApplyOutcome(s, w, t, d) == Upto(s, w, t, d, 7) by { WholeIsUpto(s, w, t, d); }
    assert Seen(t, d, HermesApiKey) == Overlay(t, d, "HERMES_API_KEY");
    FirstStepsRaise(s, w, t, d);
    Continues(s, w, t, d, 2);
    if Upto(s, w, t, d, 2).Sets? {
      HermesRaises(s, w, t, d);
    }
    LastStepsRaise(s, w, t, d);
  }

  lemma WholeIsUpto(s: WizardState, w: World, t: string, d: seq<Entry>)
    ensures ApplyOutcome(s, w, t, d) == Upto(s, w, t, d, 7)
  {
  }

  /** The values set by the whole pipeline, when it does not raise. */
  function ApplyWrites(s: WizardState, w: World, t: string, d: seq<Entry>): seq<Entry> {
    match ApplyOutcome(s, w, t, d) case Sets(_, writes) => writes case Raised => []
  }

  ghost predicate StateIsFilledIn(s: WizardState, w: World, after: WizardState) {
    && w.sshKey.Some?
    && after == s.(serverImage := if s.provider == "linode" then "linode/debian13" else "debian-13",
                   agentReleaseTag := w.releaseTag, sshPrivateKeyPath := w.sshKey.value.path)
  }

  /** The state afterwards: the image of the provider, the tag found and the path of the key pair are
      filled in, and nothing else has changed. */
  lemma StateFilledIn(s: WizardState, w: World, t: string, d: seq<Entry>)
    requires ApplyOutcome(s, w, t, d).Sets?
    ensures StateIsFilledIn(s, w, ApplyOutcome(s, w, t, d).state)
  {
    hide Name;
    hide Upto;
    hide Seen;
    hide ApplyOutcome;
    WholeIsUpto(s, w, t, d);
    PipelineStep(s, w, t, d, 6);
    PipelineStep(s, w, t, d, 5);
    PipelineStep(s, w, t, d, 4);
    PipelineStep(s, w, t, d, 3);
    StateAfterHermes(s, w, t, d);
  }

  lemma StateAfterHermes(s: WizardState, w: World, t: string, d: seq<Entry>)
    requires Upto(s, w, t, d, 3).Sets?
    ensures Upto(s, w, t, d, 3).state ==
      s.(serverImage := if s.provider == "linode" then "linode/debian13" else "debian-13", agentReleaseTag := w.releaseTag)
  {
    hide Name;
    hide Upto;
    hide Seen;
    PipelineStep(s, w, t, d, 2);
    PipelineStep(s, w, t, d, 1);
    PipelineStep(s, w, t, d, 0);
    NothingShown(s, w, t, d, "");
  }
}
