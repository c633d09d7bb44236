/** prepare as the sequence of file-system changes it is, interleaved with calls for other keys, and
    why every way it can end is a history of the step machine. */
module ToolchainPrepare {
  import opened Collections
  import opened ToolchainCache

  /** What befalls one step: a crash before it; how much a tree removal keeps and whether it
      finishes; how a command exits, what files it leaves and what it prints, blanks at the ends removed;
      whether a write tears. */
  datatype Fate = Fate(crash: bool, kept: set<string>, finishes: bool, ok: bool, files: Files, output: string, tears: bool)

  type Fates = nat -> Fate

  datatype CacheResult = CacheResult(cacheDir: string, cli: string, version: string, tag: string, commit: string)

  ghost predicate CommandsSpareSentinel(fates: Fates) {
    forall n :: SENTINEL !in fates(n).files
  }

  lemma RunStep(root: string, from: Machine, trace: seq<Event>, e: Event)
    requires Run(root, from, trace).Some?
    ensures Run(root, from, trace + [e]) == Next(root, Run(root, from, trace).value, e)
  {
    assert (trace + [e])[..|trace|] == trace;
  }

  /** One more step of the machine extends a history and keeps its invariant. */
  lemma HistoryGrows(root: string, from: Machine, trace: seq<Event>, before: Machine, e: Event, after: Machine)
    requires Run(root, from, trace) == Some(before) && Sound(before) && Next(root, before, e) == Some(after)
    ensures Run(root, from, trace + [e]) == Some(after) && Sound(after)
  {
    hide Sound;
    hide Next;
    RunStep(root, from, trace, e);
    StepKeepsSound(root, before, e);
  }

  lemma UpdateFound<T>(m: map<string, T>, key: string)
    ensures Update(m, key, Find(m, key)) == m
  {
  }

  /** A step of a call that leaves its final directory alone. */
  lemma BuildChange(root: string, m: Machine, key: string, c: Change, build: Option<Dir>, job: Option<Job>)
    requires key in m.jobs
    requires LocalStep(FinalPath(root, key), LocalOf(m, key), c) == Some(Local(job, build, Find(m.cache.finals, key)))
    ensures Next(root, m, Act(key, c)) ==
      Some(Machine(Cache(m.cache.finals, Update(m.cache.building, NameOf(m.jobs[key]), build)), Update(m.jobs, key, job)))
  {
    hide LocalStep;
    hide NameOf;
    UpdateFound(m.cache.finals, key);
  }

  /** A step of a call that leaves its build directory alone. */
  lemma FinalChange(root: string, m: Machine, key: string, c: Change, final: Option<Dir>, job: Option<Job>)
    requires key in m.jobs
    requires LocalStep(FinalPath(root, key), LocalOf(m, key), c) ==
      Some(Local(job, Find(m.cache.building, NameOf(m.jobs[key])), final))
    ensures Next(root, m, Act(key, c)) ==
      Some(Machine(Cache(Update(m.cache.finals, key, final), m.cache.building), Update(m.jobs, key, job)))
  {
    hide LocalStep;
    hide NameOf;
    UpdateFound(m.cache.building, NameOf(m.jobs[key]));
  }

  /** The machine after the events of other keys than the given one, as far as they can happen. */
  function OthersDone(root: string, m: Machine, events: seq<Event>, key: string): Machine {
    if events == [] then m
    else
      var before, e := OthersDone(root, m, events[..|events| - 1], key), events[|events| - 1];
      if KeyOfEvent(e) != key && Next(root, before, e).Some? then Next(root, before, e).value else before
  }

  class HermesToolchainCache {
    const root: string
    const fates: Fates
    /** What calls for other keys do just before the n-th step of this one. */
    const others: nat -> seq<Event>
    var cache: Cache
    var jobs: map<string, Job>
    /** The history since this call began. */
    ghost var trace: seq<Event>

    constructor (root: string, fates: Fates, others: nat -> seq<Event>, machine: Machine)
      ensures this.root == root && this.fates == fates && this.others == others
      ensures State() == machine && trace == []
    {
      this.root, this.fates, this.others := root, fates, others;
      cache, jobs := machine.cache, machine.jobs;
      trace := [];
    }

    function State(): Machine
      reads this
    {
      Machine(cache, jobs)
    }

    /** Everything so far is a history of the machine from the given state. */
    ghost predicate Follows(from: Machine)
      reads this
    {
      Run(root, from, trace) == Some(State()) && Sound(State()) && CommandsSpareSentinel(fates)
    }

    /** The call for key is running, at the given step. */
    predicate Running(key: string, step: Step)
      reads this
    {
      key in jobs && jobs[key].step == step
    }

    /** Records that the change just made is event e. */
    ghost method Record(from: Machine, before: Machine, e: Event)
      requires Run(root, from, trace) == Some(before) && Sound(before) && CommandsSpareSentinel(fates)
      requires Next(root, before, e) == Some(State())
      modifies this`trace
      ensures Follows(from) && trace == old(trace) + [e]
    {
      HistoryGrows(root, from, trace, before, e, State());
      trace := trace + [e];
    }

    /** The call ends where it is. */
    method Stop(key: string, ghost from: Machine)
      requires Follows(from) && key in jobs
      modifies this`jobs, this`trace
      ensures Follows(from) && key !in jobs
    {
      ghost var before := State();
      BuildChange(root, before, key, Crash, Find(cache.building, NameOf(jobs[key])), None);
      UpdateFound(cache.building, NameOf(jobs[key]));
      jobs := jobs - {key};
      Record(from, before, Act(key, Crash));
    }

    /** Calls for other keys go on; this one does not notice. */
    method Interfere(n: nat, key: string, ghost from: Machine)
      requires Follows(from) && key in jobs
      modifies this
      ensures Follows(from) && key in jobs && LocalOf(State(), key) == old(LocalOf(State(), key))
      ensures State() == OthersDone(root, old(State()), others(n), key)
    {
      var events := others(n);
      assert events[..|events|] == events;
      for i := 0 to |events|
        invariant Follows(from) && key in jobs && LocalOf(State(), key) == old(LocalOf(State(), key))
        invariant State() == OthersDone(root, old(State()), events[..i], key)
      {
        assert events[..i + 1][..i] == events[..i];
        if KeyOfEvent(events[i]) != key {
          match Next(root, State(), events[i])
          case None =>
          case Some(next) =>
            ghost var before := State();
            OthersUntouched(root, before, events[i], key);
            cache, jobs := next.cache, next.jobs;
            Record(from, before, events[i]);
        }
      }
    }

    method GoTo(key: string, step: Step)
      requires key in jobs
      modifies this`jobs
      ensures jobs == old(jobs)[key := old(jobs)[key].(step := step)]
    {
      jobs := jobs[key := jobs[key].(step := step)];
    }

    /** Removes the half-built directory, if there is one. */
    method ClearBuildDir(key: string, name: string, ghost from: Machine) returns (ok: bool)
      requires Follows(from) && Running(key, ClearBuild) && name == NameOf(jobs[key])
      modifies this
      ensures Follows(from)
      ensures if ok then key in jobs && jobs[key] == old(jobs[key]).(step := MakeBuild) else key !in jobs
      ensures ok <==> !fates(0).crash && (name in old(cache.building) ==> fates(0).finishes)
      ensures ok ==> (key in cache.finals <==> key in old(cache.finals))
    {
      hide OthersDone;
      Interfere(0, key, from);
      var fate := fates(0);
      if fate.crash {
        Stop(key, from);
        return false;
      }
      if name in cache.building {
        RemovePartOfBuild(key, name, fate.kept, from);
        if !fate.finishes {
          Stop(key, from);
          return false;
        }
      }
      ghost var before := State();
      BuildChange(root, before, key, Removed, None, Some(jobs[key].(step := MakeBuild)));
      cache := cache.(building := cache.building - {name});
      GoTo(key, MakeBuild);
      Record(from, before, Act(key, Removed));
      ok := true;
    }

    method RemovePartOfBuild(key: string, name: string, kept: set<string>, ghost from: Machine)
      requires Follows(from) && Running(key, ClearBuild) && name == NameOf(jobs[key]) && name in cache.building
      modifies this`cache, this`trace
      ensures Follows(from) && cache.finals == old(cache.finals)
    {
      ghost var before := State();
      var d := Shrink(cache.building[name], kept);
      BuildChange(root, before, key, Remove(kept), Some(d), Some(jobs[key]));
      UpdateFound(jobs, key);
      cache := cache.(building := cache.building[name := d]);
      Record(from, before, Act(key, Remove(kept)));
    }

    method MakeBuildDir(key: string, name: string, version: string, tag: string, ghost from: Machine) returns (ok: bool)
      requires Follows(from) && Running(key, MakeBuild) && name == NameOf(jobs[key])
      requires jobs[key].version == version && jobs[key].tag == tag
      modifies this
      ensures Follows(from)
      ensures if ok then key in jobs && jobs[key] == old(jobs[key]).(step := InBuild(0)) else key !in jobs
      ensures ok <==> !fates(1).crash
      ensures ok ==> (key in cache.finals <==> key in old(cache.finals))
    {
      hide OthersDone;
      Interfere(1, key, from);
      if fates(1).crash {
        Stop(key, from);
        return false;
      }
      ghost var before := State();
      var d := Dir(map[], version, tag, [], false);
      BuildChange(root, before, key, MakeDirs, Some(d), Some(jobs[key].(step := InBuild(0))));
      cache := cache.(building := cache.building[name := d]);
      GoTo(key, InBuild(0));
      Record(from, before, Act(key, MakeDirs));
      ok := true;
    }

    /** The n-th command, run in the half-built directory. */
    method RunInBuild(key: string, name: string, n: nat, commit: string, ghost from: Machine) returns (ok: bool, commit': string)
      requires n < 4 && Follows(from) && Running(key, InBuild(n)) && name == NameOf(jobs[key]) && jobs[key].commit == commit
      modifies this
      ensures Follows(from)
      ensures if ok
        then key in jobs && jobs[key] == old(jobs[key]).(commit := commit', step := if n == 3 then ClearFinal else InBuild(n + 1))
        else key !in jobs
      ensures ok <==> !fates(2 + n).crash && fates(2 + n).ok
      ensures ok ==> (key in cache.finals <==> key in old(cache.finals))
      ensures ok && n != 1 ==> commit' == commit
      ensures ok && n == 1 && fates(3).output != "" ==> commit' == fates(3).output
      ensures ok && n == 1 && fates(3).output == "" ==> commit' == if commit == "" then "unknown" else commit
    {
      hide OthersDone;
      Interfere(2 + n, key, from);
      var fate := fates(2 + n);
      commit' := commit;
      if fate.crash {
        Stop(key, from);
        return false, commit;
      }
      if n == 1 {
        commit' := if fate.output != "" then fate.output else if commit != "" then commit else "unknown";
      }
      ok := EndInBuild(key, name, n, commit', fate, from);
    }

    method EndInBuild(key: string, name: string, n: nat, commit': string, fate: Fate, ghost from: Machine) returns (ok: bool)
      requires n < 4 && Follows(from) && Running(key, InBuild(n)) && name == NameOf(jobs[key])
      requires commit' == CommitAfter(n, jobs[key].commit, fate.output) && SENTINEL !in fate.files
      modifies this
      ensures Follows(from)
      ensures if ok
        then key in jobs && jobs[key] == old(jobs[key]).(commit := commit', step := if n == 3 then ClearFinal else InBuild(n + 1))
        else key !in jobs
      ensures ok == fate.ok && cache.finals == old(cache.finals)
    {
      ghost var before := State();
      ghost var c := Exit(fate.ok, fate.files, fate.output);
      BuildIsThere(before, key, n);
      var d := cache.building[name].(files := fate.files);
      if fate.ok {
        d := d.(exited := d.exited + [ALL_COMMANDS[n]]);
      }
      cache := cache.(building := cache.building[name := d]);
      if fate.ok {
        var step := if n == 3 then ClearFinal else InBuild(n + 1);
        jobs := jobs[key := jobs[key].(commit := commit', step := step)];
        BuildChange(root, before, key, c, Some(d), Some(jobs[key]));
      } else {
        BuildChange(root, before, key, c, Some(d), None);
        jobs := jobs - {key};
      }
      Record(from, before, Act(key, c));
      ok := fate.ok;
    }

    /** Removes the old final directory, if there is one. */
    method ClearFinalDir(key: string, ghost from: Machine) returns (ok: bool)
      requires Follows(from) && Running(key, ClearFinal)
      modifies this
      ensures Follows(from)
      ensures if ok then key in jobs && jobs[key] == old(jobs[key]).(step := Move) else key !in jobs
      ensures ok <==> !fates(6).crash && (key in old(cache.finals) ==> fates(6).finishes)
    {
      hide OthersDone;
      Interfere(6, key, from);
      var fate := fates(6);
      if fate.crash {
        Stop(key, from);
        return false;
      }
      if key in cache.finals {
        RemovePartOfFinal(key, fate.kept, from);
        if !fate.finishes {
          Stop(key, from);
          return false;
        }
      }
      ghost var before := State();
      FinalChange(root, before, key, Removed, None, Some(jobs[key].(step := Move)));
      cache := cache.(finals := cache.finals - {key});
      GoTo(key, Move);
      Record(from, before, Act(key, Removed));
      ok := true;
    }

    method RemovePartOfFinal(key: string, kept: set<string>, ghost from: Machine)
      requires Follows(from) && Running(key, ClearFinal) && key in cache.finals
      modifies this`cache, this`trace
      ensures Follows(from)
    {
      ghost var before := State();
      var d := Shrink(cache.finals[key], kept);
      FinalChange(root, before, key, Remove(kept), Some(d), Some(jobs[key]));
      UpdateFound(jobs, key);
      cache := cache.(finals := cache.finals[key := d]);
      Record(from, before, Act(key, Remove(kept)));
    }

    /** Moves the built directory into its place. */
    method MoveIntoPlace(key: string, name: string, ghost from: Machine) returns (ok: bool)
      requires Follows(from) && Running(key, Move) && name == NameOf(jobs[key])
      modifies this
      ensures Follows(from)
      ensures if ok then key in jobs && jobs[key] == old(jobs[key]).(step := InFinal(4)) else key !in jobs
      ensures ok <==> !fates(7).crash
    {
      hide OthersDone;
      Interfere(7, key, from);
      if fates(7).crash {
        Stop(key, from);
        return false;
      }
      ghost var before := State();
      BuildIsReady(before, key);
      cache := Cache(cache.finals[key := cache.building[name]], cache.building - {name});
      GoTo(key, InFinal(4));
      Record(from, before, Act(key, Replace));
      ok := true;
    }

    /** The n-th command, run in the final directory. */
    method RunInFinal(key: string, n: nat, ghost from: Machine) returns (ok: bool)
      requires 4 <= n < 7 && Follows(from) && Running(key, InFinal(n))
      modifies this
      ensures Follows(from)
      ensures if ok then key in jobs && jobs[key] == old(jobs[key]).(step := if n == 6 then WriteSentinel else InFinal(n + 1)) else key !in jobs
      ensures ok <==> !fates(4 + n).crash && fates(4 + n).ok
      ensures ok ==> key in cache.finals && cache.finals[key].files == fates(4 + n).files
    {
      hide OthersDone;
      Interfere(4 + n, key, from);
      var fate := fates(4 + n);
      if fate.crash {
        Stop(key, from);
        return false;
      }
      ok := EndInFinal(key, n, fate, from);
    }

    method EndInFinal(key: string, n: nat, fate: Fate, ghost from: Machine) returns (ok: bool)
      requires 4 <= n < 7 && Follows(from) && Running(key, InFinal(n)) && SENTINEL !in fate.files
      modifies this
      ensures Follows(from)
      ensures if ok then key in jobs && jobs[key] == old(jobs[key]).(step := if n == 6 then WriteSentinel else InFinal(n + 1)) else key !in jobs
      ensures ok == fate.ok && key in cache.finals && cache.finals[key].files == fate.files
    {
      ghost var before := State();
      ghost var c := Exit(fate.ok, fate.files, fate.output);
      FinalIsThere(before, key, n);
      var d := cache.finals[key].(files := fate.files);
      if fate.ok {
        d := d.(exited := d.exited + [ALL_COMMANDS[n]]);
      }
      cache := cache.(finals := cache.finals[key := d]);
      if fate.ok {
        GoTo(key, if n == 6 then WriteSentinel else InFinal(n + 1));
        FinalChange(root, before, key, c, Some(d), Some(jobs[key]));
      } else {
        FinalChange(root, before, key, c, Some(d), None);
        jobs := jobs - {key};
      }
      Record(from, before, Act(key, c));
      ok := fate.ok;
    }

    method MarkReady(key: string, payload: ReadyPayload, ghost from: Machine) returns (ok: bool)
      requires Follows(from) && Running(key, WriteSentinel) && payload == PayloadOf(jobs[key], FinalPath(root, key))
      requires key in cache.finals
      modifies this
      ensures Follows(from) && key !in jobs
      ensures ok <==> !fates(11).crash && !fates(11).tears
      ensures ok ==> key in cache.finals && cache.finals[key].files == old(cache.finals[key].files)[SENTINEL := Payload(payload)]
    {
      hide OthersDone;
      Interfere(11, key, from);
      var fate := fates(11);
      if fate.crash {
        Stop(key, from);
        return false;
      }
      ghost var before := State();
      ok := !fate.tears;
      var d := WithSentinel(cache.finals[key], if ok then Payload(payload) else Torn);
      ghost var c := if ok then Complete else Tear;
      FinalChange(root, before, key, c, Some(d), None);
      cache := cache.(finals := cache.finals[key := d]);
      jobs := jobs - {key};
      Record(from, before, Act(key, c));
    }

    /** One call, made while it holds the lock of its key. A directory found ready is left alone and
        nothing but the check happens. Otherwise, however the call ends and whatever calls for other
        keys do meanwhile, what has happened is a history of the machine. It returns a result exactly
        when nothing goes wrong on the way; then all commands exited 0 in the directory, which holds
        what the last one left and a sentinel with what is returned: the commit that rev-parse
        printed, or else the resolved one, or else "unknown". */
    method PrepareLocked(version: string, tag: string, request: string, resolved: string) returns (r: Option<CacheResult>)
      requires Follows(State()) && trace == []
      requires CacheKey(version, tag) !in jobs && BuildFree(State(), BuildName(version, tag, request))
      modifies this
      ensures Follows(old(State())) && CacheKey(version, tag) !in jobs
      ensures CacheReady(old(cache), root, version, tag, resolved) ==>
        && State() == old(State()) && trace == [Start(version, tag, request, resolved)]
        && r.Some? && ReturnsRecorded(root, version, tag, resolved, cache.finals[CacheKey(version, tag)].files, r.value)
      ensures !CacheReady(old(cache), root, version, tag, resolved) ==>
        (r.Some? <==> GoesThrough(fates, BuildName(version, tag, request) in old(cache.building), CacheKey(version, tag) in old(cache.finals)))
      ensures !CacheReady(old(cache), root, version, tag, resolved) && r.Some? ==>
        && Prepared(cache, root, version, tag, r.value, fates(10).files)
        && (fates(3).output != "" ==> r.value.commit == fates(3).output)
        && (fates(3).output == "" && resolved != "" ==> r.value.commit == resolved)
        && (fates(3).output == "" && resolved == "" ==> r.value.commit == "unknown")
    {
      ghost var from := State();
      var key, name := CacheKey(version, tag), BuildName(version, tag, request);
      if CacheReady(cache, root, version, tag, resolved) {
        Record(from, State(), Start(version, tag, request, resolved));
        assert trace == [Start(version, tag, request, resolved)];
        return Some(ReadyResult(root, version, tag, resolved, cache.finals[key].files));
      }
      Begin(key, version, tag, request, resolved, from);
      r := BuildAndMark(key, name, version, tag, resolved, from);
      if r.Some? {
        LocalIsPrepared(key, version, tag, r.value);
      }
    }

    lemma LocalIsPrepared(key: string, version: string, tag: string, r: CacheResult)
      requires Sound(State()) && key == CacheKey(version, tag) && Marked(key, version, tag, r)
      ensures Prepared(cache, root, version, tag, r, fates(10).files)
    {
    }

    /** The final directory holds what the last command left and a sentinel with what r says. */
    ghost predicate Marked(key: string, version: string, tag: string, r: CacheResult)
      reads this
    {
      && key in cache.finals
      && r.cacheDir == root + "/" + key && r.cli == r.cacheDir + "/venv/bin/hermes" && r.version == version && r.tag == tag
      && cache.finals[key].files ==
           fates(10).files[SENTINEL := Payload(ReadyPayload(version, tag, r.commit, "editable-all", r.cli))]
    }

    /** The seven commands, the removals and moves between them, and the sentinel. */
    method BuildAndMark(key: string, name: string, version: string, tag: string, resolved: string, ghost from: Machine)
      returns (r: Option<CacheResult>)
      requires Follows(from) && Running(key, ClearBuild) && name == NameOf(jobs[key])
      requires jobs[key].version == version && jobs[key].tag == tag && jobs[key].commit == resolved
      modifies this
      ensures Follows(from) && key !in jobs
      ensures r.Some? <==> GoesThrough(fates, name in old(cache.building), key in old(cache.finals))
      ensures r.Some? ==> Marked(key, version, tag, r.value) && r.value.commit == BuiltCommit(fates, resolved)
    {
      hide Run;
      hide Sound;
      hide BuildName;
      var ok, commit := Build(key, name, resolved, from);
      if !ok { return None; }
      ok := Finish(key, name, version, tag, commit, from);
      if !ok { return None; }
      var dirPath := FinalPath(root, key);
      PathOfCli(root, key);
      r := Some(CacheResult(dirPath, dirPath + "/" + CLI, version, tag, commit));
    }

    /** What the last command left, with a sentinel. */
    function MarkedFiles(version: string, tag: string, commit: string, cli: string): Files {
      fates(10).files[SENTINEL := Payload(ReadyPayload(version, tag, commit, "editable-all", cli))]
    }

    lemma PathOfCli(root: string, key: string)
      ensures FinalPath(root, key) == root + "/" + key
      ensures FinalPath(root, key) + "/" + CLI == FinalPath(root, key) + "/venv/bin/hermes"
    {
      assert "/" + CLI == "/venv/bin/hermes";
      ConcatAssoc(FinalPath(root, key), "/", CLI);
    }

    /** Everything before the final directory is touched. */
    method Build(key: string, name: string, resolved: string, ghost from: Machine) returns (ok: bool, commit: string)
      requires Follows(from) && Running(key, ClearBuild) && name == NameOf(jobs[key]) && jobs[key].commit == resolved
      modifies this
      ensures Follows(from)
      ensures ok <==> BuildGoesThrough(fates, name in old(cache.building))
      ensures ok ==> key in jobs && jobs[key] == old(jobs[key]).(commit := commit, step := ClearFinal)
      ensures ok ==> commit == BuiltCommit(fates, resolved) && (key in cache.finals <==> key in old(cache.finals))
      ensures !ok ==> key !in jobs
    {
      hide Run;
      hide Sound;
      hide BuildName;
      hide CommandsSpareSentinel;
      commit := resolved;
      ok := ClearBuildDir(key, name, from);
      if !ok { return; }
      ok := MakeBuildDir(key, name, jobs[key].version, jobs[key].tag, from);
      if !ok { return; }
      ok, commit := RunBuilds(key, name, resolved, from);
    }

    /** The move into place, the commands there and the sentinel. */
    method Finish(key: string, name: string, version: string, tag: string, commit: string, ghost from: Machine) returns (ok: bool)
      requires Follows(from) && Running(key, ClearFinal) && name == NameOf(jobs[key])
      requires jobs[key].version == version && jobs[key].tag == tag && jobs[key].commit == commit
      modifies this
      ensures Follows(from) && key !in jobs
      ensures ok <==> FinishGoesThrough(fates, key in old(cache.finals))
      ensures ok ==> key in cache.finals && cache.finals[key].files == MarkedFiles(version, tag, commit, FinalPath(root, key) + "/" + CLI)
    {
      hide Run;
      hide Sound;
      hide BuildName;
      hide FinalPath;
      hide CommandsSpareSentinel;
      ok := ClearFinalDir(key, from);
      if !ok { return; }
      ok := MoveIntoPlace(key, name, from);
      if !ok { return; }
      ok := RunFinals(key, version, tag, commit, from);
      if !ok { return; }
      ok := MarkReady(key, ReadyPayload(version, tag, commit, "editable-all", FinalPath(root, key) + "/" + CLI), from);
    }

    /** The four commands in the half-built directory. */
    method RunBuilds(key: string, name: string, resolved: string, ghost from: Machine) returns (ok: bool, commit: string)
      requires Follows(from) && Running(key, InBuild(0)) && name == NameOf(jobs[key]) && jobs[key].commit == resolved
      modifies this
      ensures Follows(from)
      ensures ok <==> forall m :: 2 <= m <= 5 ==> !fates(m).crash && fates(m).ok
      ensures ok ==> key in jobs && jobs[key] == old(jobs[key]).(commit := commit, step := ClearFinal)
      ensures ok ==> commit == BuiltCommit(fates, resolved) && (key in cache.finals <==> key in old(cache.finals))
      ensures !ok ==> key !in jobs
    {
      hide Run;
      hide Sound;
      hide BuildName;
      hide CommandsSpareSentinel;
      ok, commit := true, resolved;
      for n := 0 to 4
        invariant ok && Follows(from) && key in jobs
        invariant jobs[key] == old(jobs[key]).(commit := commit, step := if n == 4 then ClearFinal else InBuild(n))
        invariant key in cache.finals <==> key in old(cache.finals)
        invariant forall m :: 2 <= m < 2 + n ==> !fates(m).crash && fates(m).ok
        invariant commit == if n < 2 then resolved else BuiltCommit(fates, resolved)
      {
        ok, commit := RunInBuild(key, name, n, commit, from);
        if !ok { return; }
      }
    }

    /** The three commands in the final directory. */
    method RunFinals(key: string, version: string, tag: string, commit: string, ghost from: Machine) returns (ok: bool)
      requires Follows(from) && Running(key, InFinal(4))
      requires jobs[key].version == version && jobs[key].tag == tag && jobs[key].commit == commit
      modifies this
      ensures Follows(from)
      ensures ok <==> forall m :: 8 <= m <= 10 ==> !fates(m).crash && fates(m).ok
      ensures ok ==> Running(key, WriteSentinel) && key in cache.finals && cache.finals[key].files == fates(10).files
      ensures ok ==> jobs[key].version == version && jobs[key].tag == tag && jobs[key].commit == commit
      ensures !ok ==> key !in jobs
    {
      hide Run;
      hide Sound;
      ok := true;
      for n := 4 to 7
        invariant ok && Follows(from) && Running(key, if n == 7 then WriteSentinel else InFinal(n))
        invariant jobs[key].version == version && jobs[key].tag == tag && jobs[key].commit == commit
        invariant forall m :: 8 <= m < 4 + n ==> !fates(m).crash && fates(m).ok
        invariant n > 4 ==> key in cache.finals && cache.finals[key].files == fates(3 + n).files
      {
        ok := RunInFinal(key, n, from);
        if !ok { return; }
      }
    }

    method Begin(key: string, version: string, tag: string, request: string, resolved: string, ghost from: Machine)
      requires Follows(from) && key == CacheKey(version, tag) && key !in jobs && BuildFree(State(), BuildName(version, tag, request))
      requires !CacheReady(cache, root, version, tag, resolved)
      modifies this`jobs, this`trace
      ensures Follows(from) && key in jobs && jobs[key] == Job(version, tag, request, resolved, ClearBuild)
    {
      ghost var before := State();
      jobs := jobs[key := Job(version, tag, request, resolved, ClearBuild)];
      Record(from, before, Start(version, tag, request, resolved));
    }
  }

  ghost predicate BuildGoesThrough(fates: Fates, oldBuild: bool) {
    && (oldBuild ==> fates(0).finishes)
    && (forall n :: 0 <= n <= 5 ==> !fates(n).crash) && (forall n :: 2 <= n <= 5 ==> fates(n).ok)
  }

  ghost predicate FinishGoesThrough(fates: Fates, oldFinal: bool) {
    && (oldFinal ==> fates(6).finishes)
    && (forall n :: 6 <= n <= 11 ==> !fates(n).crash) && (forall n :: 8 <= n <= 10 ==> fates(n).ok)
    && !fates(11).tears
  }

  /** Nothing goes wrong on the way: no crash, each removal that has something to remove finishes,
      every command exits 0 and the sentinel is written whole. */
  ghost predicate GoesThrough(fates: Fates, oldBuild: bool, oldFinal: bool) {
    BuildGoesThrough(fates, oldBuild) && FinishGoesThrough(fates, oldFinal)
  }

  /** The commit rev-parse printed, or else the resolved one, or else "unknown". */
  function BuiltCommit(fates: Fates, resolved: string): string {
    if fates(3).output != "" then fates(3).output else if resolved == "" then "unknown" else resolved
  }

  /** What a call returns for a directory it finds ready: the commit recorded there, or the resolved
      one when none is. */
  function ReadyResult(root: string, version: string, tag: string, resolved: string, files: Files): CacheResult
    requires SENTINEL in files && files[SENTINEL].Payload?
  {
    var dirPath, recorded := FinalPath(root, CacheKey(version, tag)), files[SENTINEL].payload.gitCommit;
    CacheResult(dirPath, dirPath + "/" + CLI, version, tag, if recorded != "" then recorded else resolved)
  }

  ghost predicate ReturnsRecorded(root: string, version: string, tag: string, resolved: string, files: Files, r: CacheResult)
    requires SENTINEL in files && files[SENTINEL].Payload?
  {
    && r.version == version && r.tag == tag
    && r.cacheDir == root + "/" + version + "-" + tag && r.cli == r.cacheDir + "/venv/bin/hermes"
    && (files[SENTINEL].payload.gitCommit != "" ==> r.commit == files[SENTINEL].payload.gitCommit)
    && (files[SENTINEL].payload.gitCommit == "" ==> r.commit == resolved)
  }

  /** The directory of version and tag has seen all commands, holds the files left and its sentinel
      says what r says. */
  ghost predicate Prepared(cache: Cache, root: string, version: string, tag: string, r: CacheResult, left: Files) {
    var key := version + "-" + tag;
    && key in cache.finals
    && cache.finals[key].exited == [Clone, RevParse, CreateVenv, Install, Reinstall, SmokeTest, ImportCheck]
    && r.cacheDir == root + "/" + key && r.cli == r.cacheDir + "/venv/bin/hermes" && r.version == version && r.tag == tag
    && cache.finals[key].files == left[SENTINEL := Payload(ReadyPayload(version, tag, r.commit, "editable-all", r.cli))]
  }

  lemma BuildIsThere(m: Machine, key: string, n: nat)
    requires Sound(m) && key in m.jobs && m.jobs[key].step == InBuild(n)
    ensures NameOf(m.jobs[key]) in m.cache.building && SENTINEL !in m.cache.building[NameOf(m.jobs[key])].files
  {
    LocalIsSound(m, key);
  }

  lemma BuildIsReady(m: Machine, key: string)
    requires Sound(m) && key in m.jobs && m.jobs[key].step == Move
    ensures NameOf(m.jobs[key]) in m.cache.building
  {
    LocalIsSound(m, key);
  }

  lemma FinalIsThere(m: Machine, key: string, n: nat)
    requires Sound(m) && key in m.jobs && m.jobs[key].step == InFinal(n)
    ensures key in m.cache.finals && SENTINEL !in m.cache.finals[key].files
  {
    LocalIsSound(m, key);
  }
}
