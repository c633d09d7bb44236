/** The project configuration draft and its mapping to the .env file
    (hermes_vps_app/config_model.py). */
module ConfigModel {
  import opened Collections
  import opened RegexTemplate
  import opened EnvText

  /** The .env keys the panel knows. */
  datatype EnvKey =
    | CloudProviderKey | HcloudToken | LinodeToken | ServerLocation | ServerType | ServerImage
    | Hostname | AdminUsername | AdminGroup | SshPrivateKeyPath | SshPort | HermesProvider
    | HermesModel | AgentVersion | AgentReleaseTag | HermesApiKey | TelegramBotToken
    | TelegramAllowlistIds | TelegramPollTimeout

  function Name(k: EnvKey): string {
    match k
    case CloudProviderKey => "TF_VAR_cloud_provider"
    case HcloudToken => "HCLOUD_TOKEN"
    case LinodeToken => "LINODE_TOKEN"
    case ServerLocation => "TF_VAR_server_location"
    case ServerType => "TF_VAR_server_type"
    case ServerImage => "TF_VAR_server_image"
    case Hostname => "TF_VAR_hostname"
    case AdminUsername => "TF_VAR_admin_username"
    case AdminGroup => "TF_VAR_admin_group"
    case SshPrivateKeyPath => "BOOTSTRAP_SSH_PRIVATE_KEY_PATH"
    case SshPort => "BOOTSTRAP_SSH_PORT"
    case HermesProvider => "TF_VAR_hermes_provider"
    case HermesModel => "TF_VAR_hermes_model"
    case AgentVersion => "HERMES_AGENT_VERSION"
    case AgentReleaseTag => "HERMES_AGENT_RELEASE_TAG"
    case HermesApiKey => "HERMES_API_KEY"
    case TelegramBotToken => "TELEGRAM_BOT_TOKEN"
    case TelegramAllowlistIds => "TELEGRAM_ALLOWLIST_IDS"
    case TelegramPollTimeout => "TELEGRAM_POLL_TIMEOUT"
  }

  /** The key a name stands for. */
  function KeyNamed(name: string): Option<EnvKey> {
    if name == "TF_VAR_cloud_provider" then Some(CloudProviderKey)
    else if name == "HCLOUD_TOKEN" then Some(HcloudToken)
    else if name == "LINODE_TOKEN" then Some(LinodeToken)
    else if name == "TF_VAR_server_location" then Some(ServerLocation)
    else if name == "TF_VAR_server_type" then Some(ServerType)
    else if name == "TF_VAR_server_image" then Some(ServerImage)
    else if name == "TF_VAR_hostname" then Some(Hostname)
    else if name == "TF_VAR_admin_username" then Some(AdminUsername)
    else if name == "TF_VAR_admin_group" then Some(AdminGroup)
    else if name == "BOOTSTRAP_SSH_PRIVATE_KEY_PATH" then Some(SshPrivateKeyPath)
    else if name == "BOOTSTRAP_SSH_PORT" then Some(SshPort)
    else if name == "TF_VAR_hermes_provider" then Some(HermesProvider)
    else if name == "TF_VAR_hermes_model" then Some(HermesModel)
    else if name == "HERMES_AGENT_VERSION" then Some(AgentVersion)
    else if name == "HERMES_AGENT_RELEASE_TAG" then Some(AgentReleaseTag)
    else if name == "HERMES_API_KEY" then Some(HermesApiKey)
    else if name == "TELEGRAM_BOT_TOKEN" then Some(TelegramBotToken)
    else if name == "TELEGRAM_ALLOWLIST_IDS" then Some(TelegramAllowlistIds)
    else if name == "TELEGRAM_POLL_TIMEOUT" then Some(TelegramPollTimeout)
    else None
  }

  predicate EarlyKey(k: EnvKey) {
    || k.CloudProviderKey? || k.HcloudToken? || k.LinodeToken? || k.ServerLocation? || k.ServerType?
    || k.ServerImage? || k.Hostname? || k.AdminUsername? || k.AdminGroup? || k.SshPrivateKeyPath? || k.SshPort?
  }

  lemma EarlyNames(k: EnvKey)
    requires EarlyKey(k)
    ensures KeyNamed(Name(k)) == Some(k)
  {
  }

  lemma HermesNames(k: EnvKey)
    requires k.HermesProvider? || k.HermesModel?
    ensures KeyNamed(Name(k)) == Some(k)
  {
  }

  lemma AgentNames(k: EnvKey)
    requires k.AgentVersion? || k.AgentReleaseTag?
    ensures KeyNamed(Name(k)) == Some(k)
  {
  }

  lemma ApiKeyName()
    ensures KeyNamed(Name(HermesApiKey)) == Some(HermesApiKey)
  {
  }

  lemma BotTokenName()
    ensures KeyNamed(Name(TelegramBotToken)) == Some(TelegramBotToken)
  {
  }

  lemma AllowlistName()
    ensures KeyNamed(Name(TelegramAllowlistIds)) == Some(TelegramAllowlistIds)
  {
  }

  lemma PollTimeoutName()
    ensures KeyNamed(Name(TelegramPollTimeout)) == Some(TelegramPollTimeout)
  {
  }

  /** No two keys have the same name. */
  lemma NameIsUnique(k: EnvKey)
    ensures KeyNamed(Name(k)) == Some(k)
  {
    hide Name;
    hide KeyNamed;
    match k
    case HermesProvider | HermesModel => HermesNames(k);
    case AgentVersion | AgentReleaseTag => AgentNames(k);
    case HermesApiKey => ApiKeyName();
    case TelegramBotToken => BotTokenName();
    case TelegramAllowlistIds => AllowlistName();
    case TelegramPollTimeout => PollTimeoutName();
    case _ => EarlyNames(k);
  }

  lemma SameName(a: EnvKey, b: EnvKey)
    ensures Name(a) == Name(b) <==> a == b
  {
    hide Name;
    hide KeyNamed;
    NameIsUnique(a);
    NameIsUnique(b);
  }

  predicate NameChars(s: string) {
    s != "" && forall i :: 0 <= i < |s| ==> s[i] == '_' || Letter(s[i])
  }

  lemma NameCharsAreGood(s: string)
    requires NameChars(s)
    ensures GoodKey(s)
  {
  }

  lemma ServerNamesAreGood(k: EnvKey)
    requires k.CloudProviderKey? || k.ServerLocation? || k.ServerType? || k.ServerImage? || k.Hostname?
          || k.AdminUsername? || k.AdminGroup?
    ensures NameChars(Name(k))
  {
  }

  lemma HermesNamesAreGood(k: EnvKey)
    requires k.HermesProvider? || k.HermesModel? || k.AgentVersion? || k.AgentReleaseTag?
    ensures NameChars(Name(k))
  {
  }

  lemma SecretNamesAreGood(k: EnvKey)
    requires k.HcloudToken? || k.LinodeToken? || k.HermesApiKey? || k.TelegramBotToken?
    ensures NameChars(Name(k))
  {
  }

  lemma TelegramNamesAreGood(k: EnvKey)
    requires k.TelegramAllowlistIds? || k.TelegramPollTimeout?
    ensures NameChars(Name(k))
  {
  }

  lemma SshNamesAreGood(k: EnvKey)
    requires k.SshPrivateKeyPath? || k.SshPort?
    ensures NameChars(Name(k))
  {
  }

  lemma NameIsGood(k: EnvKey)
    ensures GoodKey(Name(k))
  {
    match k
    case CloudProviderKey | ServerLocation | ServerType | ServerImage | Hostname | AdminUsername | AdminGroup =>
      ServerNamesAreGood(k);
      NameCharsAreGood(Name(k));
    case HermesProvider | HermesModel | AgentVersion | AgentReleaseTag =>
      HermesNamesAreGood(k);
      NameCharsAreGood(Name(k));
    case HcloudToken | LinodeToken | HermesApiKey | TelegramBotToken =>
      SecretNamesAreGood(k);
      NameCharsAreGood(Name(k));
    case SshPrivateKeyPath | SshPort =>
      SshNamesAreGood(k);
      NameCharsAreGood(Name(k));
    case TelegramAllowlistIds | TelegramPollTimeout =>
      TelegramNamesAreGood(k);
      NameCharsAreGood(Name(k));
  }

  datatype CloudProvider = Hetzner | Linode

  function ProviderText(p: CloudProvider): string {
    match p case Hetzner => "hetzner" case Linode => "linode"
  }

  /** A secret is shown by presence only; its value is known only when it is to be replaced. */
  datatype SecretDraft = SecretDraft(present: bool, replacement: Option<string>)

  predicate IsPresent(value: string) {
    value != "" && value != "***"
  }

  function KeepExisting(value: string): SecretDraft {
    SecretDraft(IsPresent(value), None)
  }

  datatype ProjectConfigDraft = ProjectConfigDraft(
    provider: CloudProvider,
    hcloudToken: SecretDraft,
    linodeToken: SecretDraft,
    location: string,
    serverType: string,
    image: string,
    hostname: string,
    adminUsername: string,
    adminGroup: string,
    sshPrivateKeyPath: string,
    sshPort: string,
    hermesProvider: string,
    model: string,
    agentVersion: string,
    agentReleaseTag: string,
    apiKey: SecretDraft,
    telegramBotToken: SecretDraft,
    telegramAllowlistIds: string,
    telegramPollTimeout: string,
    originalEnv: map<EnvKey, string>)

  /** The known values of a file text. */
  function KnownValues(t: string): (r: map<EnvKey, string>)
    ensures forall k :: k in r && r[k] == GetValue(t, Name(k))
  {
    map k: EnvKey | true :: GetValue(t, Name(k))
  }

  function Load(t: string): ProjectConfigDraft {
    FromValues(KnownValues(t))
  }

  function FromValues(values: map<EnvKey, string>): ProjectConfigDraft
    requires forall k: EnvKey :: k in values
  {
    ProjectConfigDraft(
      if values[CloudProviderKey] == "linode" then Linode else Hetzner,
      KeepExisting(values[HcloudToken]),
      KeepExisting(values[LinodeToken]),
      values[ServerLocation], values[ServerType], values[ServerImage], values[Hostname],
      values[AdminUsername], values[AdminGroup], values[SshPrivateKeyPath], values[SshPort],
      values[HermesProvider], values[HermesModel], values[AgentVersion], values[AgentReleaseTag],
      KeepExisting(values[HermesApiKey]),
      KeepExisting(values[TelegramBotToken]),
      values[TelegramAllowlistIds], values[TelegramPollTimeout],
      values)
  }

  /** The value the draft wants for a key; none for secrets to keep and for an empty model. */
  function Desired(draft: ProjectConfigDraft, k: EnvKey): Option<string> {
    match k
    case CloudProviderKey => Some(ProviderText(draft.provider))
    case HcloudToken => draft.hcloudToken.replacement
    case LinodeToken => draft.linodeToken.replacement
    case ServerLocation => Some(draft.location)
    case ServerType => Some(draft.serverType)
    case ServerImage => Some(draft.image)
    case Hostname => Some(draft.hostname)
    case AdminUsername => Some(draft.adminUsername)
    case AdminGroup => Some(draft.adminGroup)
    case SshPrivateKeyPath => Some(draft.sshPrivateKeyPath)
    case SshPort => Some(draft.sshPort)
    case HermesProvider => Some(draft.hermesProvider)
    case HermesModel => if draft.model != "" then Some(draft.model) else None
    case AgentVersion => Some(draft.agentVersion)
    case AgentReleaseTag => Some(draft.agentReleaseTag)
    case HermesApiKey => draft.apiKey.replacement
    case TelegramBotToken => draft.telegramBotToken.replacement
    case TelegramAllowlistIds => Some(draft.telegramAllowlistIds)
    case TelegramPollTimeout => Some(draft.telegramPollTimeout)
  }

  /** The order in which the desired values are compared with the file. */
  const DESIRED_ORDER: seq<EnvKey> := [
    CloudProviderKey, ServerLocation, ServerType, ServerImage, Hostname, AdminUsername,
    AdminGroup, SshPrivateKeyPath, SshPort, HermesProvider, AgentVersion, AgentReleaseTag,
    TelegramAllowlistIds, TelegramPollTimeout, HermesModel, HcloudToken, LinodeToken,
    HermesApiKey, TelegramBotToken]

  predicate IsSecret(k: EnvKey) {
    k.HcloudToken? || k.LinodeToken? || k.HermesApiKey? || k.TelegramBotToken?
  }

  datatype EnvChange = EnvChange(key: EnvKey, before: string, after: string, secret: bool)

  /** What a key should read after the draft has been written over the original values. */
  ghost function Target(draft: ProjectConfigDraft, original: map<EnvKey, string>, k: EnvKey): string
    requires k in original
  {
    if Desired(draft, k).Some? then Desired(draft, k).value
    else if k.HermesModel? then ""
    else original[k]
  }

  ghost predicate InPatch(patch: seq<EnvChange>, k: EnvKey) {
    exists c :: c in patch && c.key == k
  }

  ghost predicate IsChange(draft: ProjectConfigDraft, original: map<EnvKey, string>, c: EnvChange)
    requires forall k: EnvKey :: k in original
  {
    && c.before == original[c.key] && c.after == Target(draft, original, c.key)
    && (c.secret <==> c.key in {HcloudToken, LinodeToken, HermesApiKey, TelegramBotToken})
    && c.before != c.after
  }

  /** The patch changes exactly the keys whose target differs from the original, each once. */
  ghost predicate IsPatch(draft: ProjectConfigDraft, original: map<EnvKey, string>, patch: seq<EnvChange>)
    requires forall k: EnvKey :: k in original
  {
    && (forall c :: c in patch ==> IsChange(draft, original, c))
    && (forall k: EnvKey :: Target(draft, original, k) != original[k] ==> InPatch(patch, k))
    && (forall i, j :: 0 <= i < j < |patch| ==> patch[i].key != patch[j].key)
  }

  lemma OrderIsComplete(k: EnvKey)
    ensures k in DESIRED_ORDER
  {
    match k
    case CloudProviderKey => assert DESIRED_ORDER[0] == k;
    case ServerLocation => assert DESIRED_ORDER[1] == k;
    case ServerType => assert DESIRED_ORDER[2] == k;
    case ServerImage => assert DESIRED_ORDER[3] == k;
    case Hostname => assert DESIRED_ORDER[4] == k;
    case AdminUsername => assert DESIRED_ORDER[5] == k;
    case AdminGroup => assert DESIRED_ORDER[6] == k;
    case SshPrivateKeyPath => assert DESIRED_ORDER[7] == k;
    case SshPort => assert DESIRED_ORDER[8] == k;
    case HermesProvider => assert DESIRED_ORDER[9] == k;
    case AgentVersion => assert DESIRED_ORDER[10] == k;
    case AgentReleaseTag => assert DESIRED_ORDER[11] == k;
    case TelegramAllowlistIds => assert DESIRED_ORDER[12] == k;
    case TelegramPollTimeout => assert DESIRED_ORDER[13] == k;
    case HermesModel => assert DESIRED_ORDER[14] == k;
    case HcloudToken => assert DESIRED_ORDER[15] == k;
    case LinodeToken => assert DESIRED_ORDER[16] == k;
    case HermesApiKey => assert DESIRED_ORDER[17] == k;
    case TelegramBotToken => assert DESIRED_ORDER[18] == k;
  }

  /** The changes found among the first n keys of the order. */
  ghost predicate PatchSoFar(draft: ProjectConfigDraft, original: map<EnvKey, string>, patch: seq<EnvChange>, n: nat)
    requires n <= |DESIRED_ORDER| && forall k: EnvKey :: k in original
  {
    && (forall c :: c in patch ==>
          && Desired(draft, c.key) == Some(c.after) && c.before == original[c.key] != c.after
          && c.secret == IsSecret(c.key) && c.key in DESIRED_ORDER[..n])
    && (forall i :: 0 <= i < n ==> Unchanged(draft, original, DESIRED_ORDER[i]) || InPatch(patch, DESIRED_ORDER[i]))
    && (forall i, j :: 0 <= i < j < |patch| ==> patch[i].key != patch[j].key)
  }

  predicate Unchanged(draft: ProjectConfigDraft, original: map<EnvKey, string>, k: EnvKey)
    requires k in original
  {
    Desired(draft, k).None? || Desired(draft, k).value == original[k]
  }

  lemma OrderIsDistinct()
    ensures forall i, j :: 0 <= i < j < |DESIRED_ORDER| ==> DESIRED_ORDER[i] != DESIRED_ORDER[j]
  {
  }

  method CreatePatch(draft: ProjectConfigDraft, t: string) returns (patch: seq<EnvChange>)
    requires draft.originalEnv == map[] || forall k: EnvKey :: k in draft.originalEnv
    ensures IsPatch(draft, if draft.originalEnv != map[] then draft.originalEnv else KnownValues(t), patch)
  {
    var original := if draft.originalEnv != map[] then draft.originalEnv else KnownValues(t);
    patch := [];
    for i := 0 to |DESIRED_ORDER|
      invariant PatchSoFar(draft, original, patch, i)
    {
      var k := DESIRED_ORDER[i];
      var desired := Desired(draft, k);
      PatchStep(draft, original, patch, i);
      if desired.Some? && original[k] != desired.value {
        patch := patch + [EnvChange(k, original[k], desired.value, IsSecret(k))];
      }
    }
    var found := patch;
    if draft.model == "" && original[HermesModel] != "" {
      patch := patch + [EnvChange(HermesModel, original[HermesModel], "", false)];
    }
    PatchComplete(draft, original, found, patch);
  }

  lemma PatchStep(draft: ProjectConfigDraft, original: map<EnvKey, string>, patch: seq<EnvChange>, i: nat)
    requires i < |DESIRED_ORDER| && forall k: EnvKey :: k in original
    requires PatchSoFar(draft, original, patch, i)
    ensures var k := DESIRED_ORDER[i];
      if Unchanged(draft, original, k) then PatchSoFar(draft, original, patch, i + 1)
      else PatchSoFar(draft, original, patch + [EnvChange(k, original[k], Desired(draft, k).value, IsSecret(k))], i + 1)
  {
    if Unchanged(draft, original, DESIRED_ORDER[i]) {
      forall c | c in patch ensures c.key in DESIRED_ORDER[..i + 1] {
        assert DESIRED_ORDER[..i + 1] == DESIRED_ORDER[..i] + [DESIRED_ORDER[i]];
      }
    } else {
      PatchGrows(draft, original, patch, i);
    }
  }

  lemma PatchGrows(draft: ProjectConfigDraft, original: map<EnvKey, string>, patch: seq<EnvChange>, i: nat)
    requires i < |DESIRED_ORDER| && forall k: EnvKey :: k in original
    requires PatchSoFar(draft, original, patch, i) && !Unchanged(draft, original, DESIRED_ORDER[i])
    ensures var k := DESIRED_ORDER[i];
      PatchSoFar(draft, original, patch + [EnvChange(k, original[k], Desired(draft, k).value, IsSecret(k))], i + 1)
  {
    var k := DESIRED_ORDER[i];
    var c := EnvChange(k, original[k], Desired(draft, k).value, IsSecret(k));
    var grown := patch + [c];
    OrderIsDistinct();
    assert DESIRED_ORDER[..i + 1] == DESIRED_ORDER[..i] + [k];
    forall j | 0 <= j <= i && !Unchanged(draft, original, DESIRED_ORDER[j]) ensures InPatch(grown, DESIRED_ORDER[j]) {
      if j == i {
        assert grown[|patch|] == c;
      } else {
        var x :| x in patch && x.key == DESIRED_ORDER[j];
        assert x in grown;
      }
    }
    forall a | 0 <= a < |patch| ensures patch[a].key != k {
      assert patch[a] in patch;
    }
  }

  lemma PatchComplete(draft: ProjectConfigDraft, original: map<EnvKey, string>, found: seq<EnvChange>, patch: seq<EnvChange>)
    requires forall k: EnvKey :: k in original
    requires PatchSoFar(draft, original, found, |DESIRED_ORDER|)
    requires patch == if draft.model == "" && original[HermesModel] != ""
                      then found + [EnvChange(HermesModel, original[HermesModel], "", false)] else found
    ensures IsPatch(draft, original, patch)
  {
    forall k: EnvKey | Target(draft, original, k) != original[k] ensures InPatch(patch, k) {
      ChangeIsFound(draft, original, found, patch, k);
    }
    FoundAreChanges(draft, original, found);
    if patch != found {
      ClearingIsAdded(draft, original, found, patch);
    }
  }

  lemma FoundAreChanges(draft: ProjectConfigDraft, original: map<EnvKey, string>, found: seq<EnvChange>)
    requires forall k: EnvKey :: k in original
    requires PatchSoFar(draft, original, found, |DESIRED_ORDER|)
    ensures forall c :: c in found ==> IsChange(draft, original, c)
  {
    forall c | c in found ensures IsChange(draft, original, c) {
      assert Desired(draft, c.key) == Some(c.after);
    }
  }

  /** Clearing the model is a change of its own. */
  lemma ClearingIsAdded(draft: ProjectConfigDraft, original: map<EnvKey, string>, found: seq<EnvChange>, patch: seq<EnvChange>)
    requires forall k: EnvKey :: k in original
    requires PatchSoFar(draft, original, found, |DESIRED_ORDER|)
    requires draft.model == "" && original[HermesModel] != ""
    requires patch == found + [EnvChange(HermesModel, original[HermesModel], "", false)]
    ensures IsChange(draft, original, patch[|found|])
    ensures forall i, j :: 0 <= i < j < |patch| ==> patch[i].key != patch[j].key
  {
    assert Desired(draft, HermesModel).None?;
    forall i | 0 <= i < |found| ensures found[i].key != HermesModel {
      assert found[i] in found;
    }
  }

  lemma ChangeIsFound(draft: ProjectConfigDraft, original: map<EnvKey, string>, found: seq<EnvChange>, patch: seq<EnvChange>, k: EnvKey)
    requires forall k: EnvKey :: k in original
    requires PatchSoFar(draft, original, found, |DESIRED_ORDER|) && found <= patch
    requires draft.model == "" && original[HermesModel] != "" ==> |patch| > |found| && patch[|found|].key == HermesModel
    requires Target(draft, original, k) != original[k]
    ensures InPatch(patch, k)
  {
    OrderIsComplete(k);
    if k.HermesModel? && draft.model == "" {
      assert patch[|found|] in patch;
    } else {
      var i :| 0 <= i < |DESIRED_ORDER| && DESIRED_ORDER[i] == k;
      assert !Unchanged(draft, original, DESIRED_ORDER[i]);
      var x :| x in found && x.key == k;
      var j :| 0 <= j < |found| && found[j] == x;
      assert patch[j] == x;
    }
  }
}
