/** The apply pipeline of the wizard (build_apply_plan, execute_apply_plan, _run_apply_effect and
    the persist steps in scripts/configure_services.py): effects stage values one after the
    other and the last one commits the file. */
module ApplyPipeline {
  import opened EnvOverlay
  import opened EnvStorage
  import opened ConfigModel
  import opened ApplyEffects
  import opened ApplyValues

  class ConfigureOrchestrator {
    const env: EnvStore
    const world: World
    var state: WizardState

    constructor (env: EnvStore, world: World, state: WizardState)
      ensures this.env == env && this.world == world && this.state == state
    {
      this.env, this.world, this.state := env, world, state;
    }

    /** One more value set after those in writes. */
    method Stage(k: EnvKey, value: string, ghost base: seq<Entry>, ghost writes: seq<Entry>)
      requires env.Valid() && env.staged == StageAll(env.Text(), base, writes)
      modifies env`staged
      ensures env.Valid() && env.staged == StageAll(env.Text(), base, writes + [Write(k, value)])
    {
      NameIsGood(k);
      StageSnoc(env.Text(), base, writes, Write(k, value));
      env.Set(Name(k), value);
    }

    /** The n-th of a list of values is set after the ones before it. */
    method StageNth(k: EnvKey, value: string, ghost base: seq<Entry>, ghost writes: seq<Entry>, ghost n: nat)
      requires env.Valid() && n < |writes| && writes[n] == Write(k, value)
      requires env.staged == StageAll(env.Text(), base, writes[..n])
      modifies env`staged
      ensures env.Valid() && env.staged == StageAll(env.Text(), base, writes[..n + 1])
    {
      assert writes[..n + 1] == writes[..n] + [writes[n]];
      Stage(k, value, base, writes[..n]);
    }

    /** Two consecutive values of a list. */
    method StagePair(k: EnvKey, value: string, k2: EnvKey, value2: string,
                     ghost base: seq<Entry>, ghost writes: seq<Entry>, ghost n: nat)
      requires env.Valid() && n + 1 < |writes|
      requires writes[n] == Write(k, value) && writes[n + 1] == Write(k2, value2)
      requires env.staged == StageAll(env.Text(), base, writes[..n])
      modifies env`staged
      ensures env.Valid() && env.staged == StageAll(env.Text(), base, writes[..n + 2])
    {
      StageNth(k, value, base, writes, n);
      StageNth(k2, value2, base, writes, n + 1);
    }

    /** The value of a key as it shows now. */
    method Show(k: EnvKey) returns (value: string)
      ensures value == Seen(env.Text(), env.staged, k)
    {
      value := env.Get(Name(k));
    }

    ghost predicate Does(outcome: Outcome, base: seq<Entry>, ok: bool)
      reads this, env
    {
      match outcome
      case Raised => !ok
      case Sets(s, writes) => ok && state == s && env.staged == StageAll(env.Text(), base, writes)
    }

    method PersistCloudStep() returns (ok: bool)
      requires env.Valid()
      modifies this, env`staged
      ensures env.Valid()
      ensures Does(CloudEffect(old(state), Seen(env.Text(), old(env.staged), TokenKey(old(state).provider))), old(env.staged), ok)
    {
      hide Name;
      hide Seen;
      hide IsPresent;
      ghost var base := env.staged;
      if state.provider != "linode" && state.provider != "hetzner" {
        return false;
      }
      var token := TokenKey(state.provider);
      state := state.(serverImage := if state.provider == "linode" then "linode/debian13" else "debian-13");
      ghost var writes := [Write(CloudProviderKey, state.provider), Write(ServerImage, state.serverImage)];
      StageProvider(base, writes);
      TokenIsOther(state.provider);
      StageSecret(token, state.tokenReplace, state.tokenInput, base, writes);
      ok := true;
    }

    method StageProvider(ghost base: seq<Entry>, ghost writes: seq<Entry>)
      requires env.Valid() && env.staged == base
      requires writes == [Write(CloudProviderKey, state.provider), Write(ServerImage, state.serverImage)]
      modifies env`staged
      ensures env.Valid() && env.staged == StageAll(env.Text(), base, writes)
    {
      hide Name;
      assert writes[..0] == [] && writes[..2] == writes;
      StagePair(CloudProviderKey, state.provider, ServerImage, state.serverImage, base, writes, 0);
    }

    /** A secret is set when it is to be replaced or has no real value yet. */
    method StageSecret(k: EnvKey, replace: bool, input: string, ghost base: seq<Entry>, ghost writes: seq<Entry>)
      requires env.Valid() && env.staged == StageAll(env.Text(), base, writes)
      requires forall e :: e in writes ==> e.key != Name(k)
      modifies env`staged
      ensures env.Valid()
      ensures env.staged == StageAll(env.Text(), base, writes + WriteIf(replace || !IsPresent(Seen(env.Text(), base, k)), k, input))
    {
      hide Name;
      OtherKeysShow(env.Text(), base, writes, k);
      var present := Show(k);
      if replace || !IsPresent(present) {
        Stage(k, input, base, writes);
      } else {
        assert writes + [] == writes;
      }
    }

    method PersistServerStep()
      requires env.Valid()
      modifies env`staged
      ensures env.Valid() && Does(ServerEffect(state), old(env.staged), true)
    {
      hide Name;
      ghost var base := env.staged;
      ghost var writes := ServerEffect(state).writes;
      assert writes[..0] == [] && writes[..6] == writes;
      PersistServerPlace(base, writes);
      StagePair(AdminGroup, state.adminGroup, SshPrivateKeyPath, state.sshPrivateKeyPath, base, writes, 4);
    }

    /** The first four values of the server step. */
    method PersistServerPlace(ghost base: seq<Entry>, ghost writes: seq<Entry>)
      requires env.Valid() && writes == ServerEffect(state).writes
      requires env.staged == StageAll(env.Text(), base, writes[..0])
      modifies env`staged
      ensures env.Valid() && env.staged == StageAll(env.Text(), base, writes[..4])
    {
      hide Name;
      StagePair(ServerLocation, state.location, ServerType, state.serverType, base, writes, 0);
      StagePair(Hostname, state.hostname, AdminUsername, state.adminUsername, base, writes, 2);
    }

    method PersistHermesStep() returns (ok: bool)
      requires env.Valid()
      modifies this, env`staged
      ensures env.Valid()
      ensures Does(HermesEffect(old(state), world, Seen(env.Text(), old(env.staged), HermesApiKey)), old(env.staged), ok)
    {
      hide Name;
      SameName(AgentReleaseTag, HermesApiKey);
      ghost var base := env.staged;
      state := state.(agentReleaseTag := world.releaseTag);
      ghost var writes := [Write(AgentReleaseTag, world.releaseTag)];
      assert [] + writes == writes;
      Stage(AgentReleaseTag, state.agentReleaseTag, base, []);
      OtherKeysShow(env.Text(), base, writes, HermesApiKey);
      if state.authMethod == "api_key" {
        ok := PersistApiKey(base, writes);
      } else {
        ok := PersistOAuth(base, writes);
      }
    }

    /** The key is cleared, and an OAuth artifact must be there or be captured now. */
    method PersistOAuth(ghost base: seq<Entry>, ghost writes: seq<Entry>) returns (ok: bool)
      requires env.Valid() && env.staged == StageAll(env.Text(), base, writes)
      modifies env`staged
      ensures env.Valid() && env.staged == StageAll(env.Text(), base, writes + [Write(HermesApiKey, "")])
      ensures ok <==> world.artifactPresent || (world.localAuth && world.artifactCaptured)
    {
      Stage(HermesApiKey, "", base, writes);
      ok := world.artifactPresent;
      if !ok && world.localAuth {
        ok := world.artifactCaptured;
      }
    }

    /** A key typed in is set; the key that then shows must be a real one, and a stale OAuth
        artifact must be gone. */
    method PersistApiKey(ghost base: seq<Entry>, ghost writes: seq<Entry>) returns (ok: bool)
      requires env.Valid() && env.staged == StageAll(env.Text(), base, writes)
      modifies env`staged
      ensures env.Valid()
      ensures env.staged == StageAll(env.Text(), base, writes + WriteIf(state.apiKeyInput != "", HermesApiKey, state.apiKeyInput))
      ensures var key := if state.apiKeyInput != "" then state.apiKeyInput else Seen(env.Text(), old(env.staged), HermesApiKey);
        ok <==> IsPresent(key) && (world.artifactPresent ==> world.artifactRemovable)
    {
      if state.apiKeyInput != "" {
        Stage(HermesApiKey, state.apiKeyInput, base, writes);
        LastWriteShows(env.Text(), base, writes, HermesApiKey, state.apiKeyInput);
      } else {
        assert writes + [] == writes;
      }
      var key := Show(HermesApiKey);
      if !IsPresent(key) {
        return false;
      }
      ok := !world.artifactPresent || world.artifactRemovable;
    }

    method PersistTelegramStep()
      requires env.Valid()
      modifies env`staged
      ensures env.Valid()
      ensures Does(TelegramEffect(state, Seen(env.Text(), old(env.staged), TelegramBotToken)), old(env.staged), true)
    {
      hide Name;
      SameName(TelegramAllowlistIds, TelegramBotToken);
      ghost var base := env.staged;
      ghost var writes := [Write(TelegramAllowlistIds, state.allowlistIds)];
      assert [] + writes == writes;
      Stage(TelegramAllowlistIds, state.allowlistIds, base, []);
      StageSecret(TelegramBotToken, state.botTokenReplace, state.botTokenInput, base, writes);
    }

    method StageExtras()
      requires env.Valid()
      modifies env`staged
      ensures env.Valid() && Does(ExtrasEffect(state), old(env.staged), true)
    {
      hide Name;
      ghost var base := env.staged;
      ghost var writes := ExtrasEffect(state).writes;
      assert writes[..0] == [] && writes[..3] == writes;
      StageNth(AgentVersion, state.agentVersion, base, writes, 0);
      StageNth(HermesProvider, state.hermesProvider, base, writes, 1);
      StageNth(HermesModel, state.hermesModel, base, writes, 2);
    }

    method EnsureSshKey() returns (ok: bool)
      requires env.Valid()
      modifies this, env`staged
      ensures env.Valid() && Does(SshEffect(old(state), world), old(env.staged), ok)
    {
      ghost var base := env.staged;
      match world.sshKey
      case None =>
        ok := false;
      case Some(key) =>
        state := state.(sshPrivateKeyPath := key.path);
        Stage(SshPrivateKeyPath, key.path, base, []);
        ghost var writes := [Write(SshPrivateKeyPath, key.path)];
        assert [] + writes == writes;
        var quoted := "\"" + key.publicKey + "\"";
        PublicKeyIsGood();
        StageSnoc(env.Text(), base, writes, Entry(PUBLIC_KEY, quoted));
        assert writes + [Entry(PUBLIC_KEY, quoted)] == [Write(SshPrivateKeyPath, key.path), Entry(PUBLIC_KEY, quoted)];
        env.Set(PUBLIC_KEY, quoted);
        ok := true;
    }

    /** Runs one effect other than the commit. The file is not touched. */
    method RunApplyEffect(effect: string) returns (ok: bool)
      requires env.Valid() && effect != "flush_env"
      modifies this, env`staged
      ensures env.Valid()
      ensures Does(EffectOutcome(effect, old(state), world, env.Text(), old(env.staged)), old(env.staged), ok)
    {
      hide Name;
      hide Seen;
      hide CloudEffect;
      hide ServerEffect;
      hide HermesEffect;
      hide TelegramEffect;
      hide ExtrasEffect;
      hide SshEffect;
      ok := true;
      if effect == "persist_cloud" {
        ok := PersistCloudStep();
      } else if effect == "persist_server" {
        PersistServerStep();
      } else if effect == "persist_hermes" {
        ok := PersistHermesStep();
      } else if effect == "persist_telegram" {
        PersistTelegramStep();
      } else if effect == "stage_extras" {
        StageExtras();
      } else if effect == "ensure_ssh_key" {
        ok := EnsureSshKey();
      } else if effect == "reconcile_ssh_alias" {
        ok := world.aliasOk;
      } else {
        ok := false;
      }
    }

    /** Runs a list of effects without a commit, stopping at the first error. */
    method RunEffects(effects: seq<string>) returns (ok: bool)
      requires env.Valid() && "flush_env" !in effects
      modifies this, env`staged
      ensures env.Valid()
      ensures Does(PlanOutcome(effects, old(state), world, env.Text(), old(env.staged)), old(env.staged), ok)
    {
      ghost var base, t, s := env.staged, env.Text(), state;
      ok := true;
      for i := 0 to |effects|
        invariant env.Valid() && ok && env.Text() == t
        invariant PlanOutcome(effects[..i], s, world, t, base).Sets?
        invariant Does(PlanOutcome(effects[..i], s, world, t, base), base, true)
      {
        ghost var before := PlanOutcome(effects[..i], s, world, t, base);
        assert effects[i] in effects;
        ok := RunApplyEffect(effects[i]);
        PlanStep(effects, s, world, t, base, i);
        if !ok {
          PlanStops(effects, s, world, t, base, i + 1);
          return;
        }
        StageConcat(t, base, before.writes, EffectOutcome(effects[i], before.state, world, t, StageAll(t, base, before.writes)).writes);
      }
      assert effects[..|effects|] == effects;
    }

    /** Executes a plan whose only commit is its last effect: if an effect raises, or the commit
        does, the file is as before; otherwise nothing stays staged and every key reads the last
        value set for it, or what it showed before, exactly when the values that end up staged
        can be stored. */
    method ExecuteApplyPlan(effects: seq<string>) returns (ok: bool)
      requires env.Valid() && effects != [] && effects[|effects| - 1] == "flush_env"
      requires "flush_env" !in effects[..|effects| - 1]
      modifies this, env
      ensures env.Valid()
      ensures !ok ==> env.disk == old(env.disk)
      ensures ok ==> env.staged == []
      ensures var o := PlanOutcome(effects[..|effects| - 1], old(state), world, old(env.Text()), old(env.staged));
        && (o.Raised? ==> !ok)
        && (o.Sets? && ok ==> state == o.state)
        && (o.Sets? && ok ==>
              (ReadsLaid(env.Text(), o.writes, old(env.Text()), old(env.staged))
               <==> PlanStorable(old(env.Text()), old(env.staged), o.writes)))
        && (o.Sets? && world.flushOk && PlanStorable(old(env.Text()), old(env.staged), o.writes) ==> ok)
    {
      ghost var t, base, front := env.Text(), env.staged, effects[..|effects| - 1];
      ghost var o := PlanOutcome(front, state, world, t, base);
      ok := RunEffects(effects[..|effects| - 1]);
      if ok {
        forall key ensures Overlay(t, env.staged, key) == Laid(o.writes, key, Overlay(t, base, key)) {
          StagedShowsWrites(t, base, o.writes, key);
        }
        ok := env.Flush(world.flushOk);
      }
    }

    /** The whole pipeline, in its fixed order. It raises before the commit exactly when it cannot
        apply, and when it raises the file is as before. When it succeeds, the file reads the applied
        values and nothing else has changed, exactly when everything that ended up staged can be
        stored; the state has the image, the tag and the key path filled in. */
    method Apply() returns (ok: bool)
      requires env.Valid()
      modifies this, env
      ensures env.Valid()
      ensures !ok ==> env.disk == old(env.disk)
      ensures ok ==> env.staged == [] && !CannotApply(old(state), world, old(env.View("HERMES_API_KEY")))
      ensures ok ==>
        (AppliedTo(env.Text(), old(state), world, old(env.Text()), old(env.staged))
         <==> PlanStorable(old(env.Text()), old(env.staged), ApplyWrites(old(state), world, old(env.Text()), old(env.staged))))
      ensures ok && AppliedTo(env.Text(), old(state), world, old(env.Text()), old(env.staged)) ==>
        FileHolds(env.Text(), old(state), world)
      ensures ok ==> StateIsFilledIn(old(state), world, state)
      ensures !CannotApply(old(state), world, old(env.View("HERMES_API_KEY"))) && world.flushOk ==>
        (PlanStorable(old(env.Text()), old(env.staged), ApplyWrites(old(state), world, old(env.Text()), old(env.staged))) ==> ok)
    {
      ghost var t, d, s := env.Text(), env.staged, state;
      hide CannotApply;
      hide Applied;
      hide Name;
      hide FileHolds;
      hide AppliedTo;
      RaisesExactly(s, world, t, d);
      CommitIsLast();
      ok := ExecuteApplyPlan(APPLY_EFFECT_ORDER);
      if ApplyOutcome(s, world, t, d).Sets? {
        AppliedIffLaid(env.Text(), s, world, t, d);
        StateFilledIn(s, world, t, d);
      }
      if ok && AppliedTo(env.Text(), s, world, t, d) {
        AppliedMeansHolds(env.Text(), s, world, t, d);
      }
    }
  }
}
