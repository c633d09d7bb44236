/** With a commit resolver that always gives the same answer for a tag, a directory found ready
    is also complete: nothing has been removed from it. */
module ToolchainSafety {
  import opened Collections
  import opened ToolchainCache

  /** No two calls of a history share a cache key without sharing version and tag. */
  ghost predicate Unambiguous(history: seq<Event>) {
    forall a, b :: a in history && b in history && a.Start? && b.Start? && KeyOfEvent(a) == KeyOfEvent(b) ==>
      a.version == b.version && a.tag == b.tag
  }

  /** For versions without a hyphen, such as dotted numbers, the cache key tells version and tag
      apart. */
  lemma KeyIsUnique(v: string, t: string, v': string, t': string)
    requires '-' !in v && '-' !in v' && CacheKey(v, t) == CacheKey(v', t')
    ensures v == v' && t == t'
  {
    HyphenAt(v, t);
    HyphenAt(v', t');
    assert CacheKey(v, t)[..|v|] == v && CacheKey(v', t')[..|v'|] == v';
    assert CacheKey(v, t)[|v| + 1..] == t && CacheKey(v', t')[|v'| + 1..] == t';
  }

  function FirstHyphen(s: string): nat {
    if s == "" || s[0] == '-' then 0 else 1 + FirstHyphen(s[1..])
  }

  lemma {:induction false} HyphenAt(v: string, t: string)
    requires '-' !in v
    ensures FirstHyphen(CacheKey(v, t)) == |v|
  {
    if v == "" {
    } else {
      assert v[0] in v;
      HyphenAt(v[1..], t);
      assert CacheKey(v, t)[1..] == CacheKey(v[1..], t);
    }
  }

  lemma HyphenFreeIsUnambiguous(history: seq<Event>)
    requires forall e :: e in history && e.Start? ==> '-' !in e.version
    ensures Unambiguous(history)
  {
    forall a, b | a in history && b in history && a.Start? && b.Start? && KeyOfEvent(a) == KeyOfEvent(b)
      ensures a.version == b.version && a.tag == b.tag
    {
      KeyIsUnique(a.version, a.tag, b.version, b.tag);
    }
  }

  datatype Call = Call(version: string, tag: string)

  /** Whom the calls of a history use a cache key for. */
  type Owners = string -> Call

  ghost function OwnerIn(history: seq<Event>, key: string): Call {
    if history == [] then Call("", "")
    else
      var e := history[|history| - 1];
      if e.Start? && KeyOfEvent(e) == key then Call(e.version, e.tag)
      else OwnerIn(history[..|history| - 1], key)
  }

  lemma {:induction false} OwnerIsCaller(history: seq<Event>, e: Event)
    requires Unambiguous(history) && e in history && e.Start?
    ensures OwnerIn(history, KeyOfEvent(e)) == Call(e.version, e.tag)
  {
    var front, last := history[..|history| - 1], history[|history| - 1];
    assert last in history;
    if last.Start? && KeyOfEvent(last) == KeyOfEvent(e) {
    } else {
      assert history == front + [last];
      assert forall x :: x in front ==> x in history;
      OwnerIsCaller(front, e);
    }
  }

  /** A call uses the resolver's answer, and its key is its own. */
  ghost predicate Regular(e: Event, resolver: string -> string, owners: Owners) {
    e.Start? ==> e.resolved == resolver(e.tag) && owners(KeyOfEvent(e)) == Call(e.version, e.tag)
  }

  /** Whether the owner of a key would find its directory ready. */
  ghost predicate ReadyForOwner(root: string, key: string, d: Option<Dir>, resolver: string -> string, owner: Call) {
    d.Some? && Ready(d.value.files, FinalPath(root, key), owner.version, owner.tag, resolver(owner.tag))
  }

  lemma ReadyIsMonotone(files: Files, kept: set<string>, dirPath: string, version: string, tag: string, resolved: string)
    requires Ready(Keep(files, kept), dirPath, version, tag, resolved)
    ensures Ready(files, dirPath, version, tag, resolved)
  {
    var name :| name in Keep(files, kept) && FinderPointsAt(Keep(files, kept), name, dirPath);
    assert FinderPointsAt(files, name, dirPath);
  }

  /** Removing files from a directory that is not ready does not make it ready. */
  lemma RemovalShows(root: string, key: string, d: Dir, kept: set<string>, resolver: string -> string, owner: Call)
    requires !ReadyForOwner(root, key, Some(d), resolver, owner)
    ensures !ReadyForOwner(root, key, Some(Shrink(d, kept)), resolver, owner)
  {
    if ReadyForOwner(root, key, Some(Shrink(d, kept)), resolver, owner) {
      ReadyIsMonotone(d.files, kept, FinalPath(root, key), owner.version, owner.tag, resolver(owner.tag));
    }
  }

  /** A directory belongs to the owner of its key and is not ready once files were removed. */
  ghost predicate DamageShows(root: string, key: string, d: Dir, resolver: string -> string, owner: Call) {
    && Call(d.version, d.tag) == owner
    && (d.damaged ==> !ReadyForOwner(root, key, Some(d), resolver, owner))
  }

  /** A call is its key's owner and, until it has cleared the final place, found and finds the
      directory there not ready. */
  ghost predicate StartedNotReady(root: string, key: string, l: Local, resolver: string -> string, owner: Call) {
    l.job.Some? ==>
      && Call(l.job.value.version, l.job.value.tag) == owner
      && (l.job.value.step.ClearBuild? || l.job.value.step.MakeBuild? || l.job.value.step.InBuild? || l.job.value.step.ClearFinal? ==>
            !ReadyForOwner(root, key, l.final, resolver, owner))
  }

  ghost predicate UndamagedLocal(root: string, key: string, l: Local, resolver: string -> string, owner: Call) {
    && StartedNotReady(root, key, l, resolver, owner)
    && (l.final.Some? ==> DamageShows(root, key, l.final.value, resolver, owner))
  }

  ghost predicate Undamaged(root: string, m: Machine, resolver: string -> string, owners: Owners) {
    && (forall key :: key in m.jobs ==> StartedNotReady(root, key, LocalOf(m, key), resolver, owners(key)))
    && (forall key :: key in m.cache.finals ==> DamageShows(root, key, m.cache.finals[key], resolver, owners(key)))
  }

  lemma ClearFinalUndamaged(root: string, key: string, l: Local, c: Change, resolver: string -> string, owner: Call)
    requires SoundLocal(l) && UndamagedLocal(root, key, l, resolver, owner) && l.job.Some? && l.job.value.step.ClearFinal?
    requires LocalStep(FinalPath(root, key), l, c).Some?
    ensures UndamagedLocal(root, key, LocalStep(FinalPath(root, key), l, c).value, resolver, owner)
  {
    hide Ready;
    if c.Remove? && l.final.Some? {
      RemovalShows(root, key, l.final.value, c.kept, resolver, owner);
    }
  }

  lemma BuildingUndamaged(root: string, key: string, l: Local, c: Change, resolver: string -> string, owner: Call)
    requires SoundLocal(l) && UndamagedLocal(root, key, l, resolver, owner) && l.job.Some?
    requires l.job.value.step.ClearBuild? || l.job.value.step.MakeBuild? || l.job.value.step.InBuild? || l.job.value.step.Move?
    requires LocalStep(FinalPath(root, key), l, c).Some?
    ensures UndamagedLocal(root, key, LocalStep(FinalPath(root, key), l, c).value, resolver, owner)
  {
    hide Ready;
  }

  lemma FinishingUndamaged(root: string, key: string, l: Local, c: Change, resolver: string -> string, owner: Call)
    requires SoundLocal(l) && UndamagedLocal(root, key, l, resolver, owner) && l.job.Some?
    requires l.job.value.step.InFinal? || l.job.value.step.WriteSentinel?
    requires LocalStep(FinalPath(root, key), l, c).Some?
    ensures UndamagedLocal(root, key, LocalStep(FinalPath(root, key), l, c).value, resolver, owner)
  {
    hide Ready;
  }

  lemma LocalStepUndamaged(root: string, key: string, l: Local, c: Change, resolver: string -> string, owner: Call)
    requires SoundLocal(l) && UndamagedLocal(root, key, l, resolver, owner) && l.job.Some?
    requires LocalStep(FinalPath(root, key), l, c).Some?
    ensures UndamagedLocal(root, key, LocalStep(FinalPath(root, key), l, c).value, resolver, owner)
  {
    hide LocalStep;
    hide UndamagedLocal;
    match l.job.value.step
    case ClearFinal => ClearFinalUndamaged(root, key, l, c, resolver, owner);
    case InFinal(_) => FinishingUndamaged(root, key, l, c, resolver, owner);
    case WriteSentinel => FinishingUndamaged(root, key, l, c, resolver, owner);
    case _ => BuildingUndamaged(root, key, l, c, resolver, owner);
  }

  lemma StartKeepsUndamaged(root: string, m: Machine, e: Event, resolver: string -> string, owners: Owners)
    requires Sound(m) && Undamaged(root, m, resolver, owners) && Regular(e, resolver, owners)
    requires e.Start? && Next(root, m, e).Some?
    ensures Undamaged(root, Next(root, m, e).value, resolver, owners)
  {
    hide Ready;
    var m' := Next(root, m, e).value;
    forall key | key in m'.jobs ensures StartedNotReady(root, key, LocalOf(m', key), resolver, owners(key)) {
      if key in m.jobs {
        assert LocalOf(m', key) == LocalOf(m, key);
      }
    }
  }

  lemma ActKeepsUndamaged(root: string, m: Machine, e: Event, resolver: string -> string, owners: Owners)
    requires Sound(m) && Undamaged(root, m, resolver, owners) && e.Act? && Next(root, m, e).Some?
    ensures Undamaged(root, Next(root, m, e).value, resolver, owners)
  {
    hide Ready;
    hide LocalStep;
    hide Sound;
    hide DamageShows;
    hide StartedNotReady;
    var m', l := Next(root, m, e).value, LocalOf(m, e.key);
    LocalIsSound(m, e.key);
    LocalStepUndamaged(root, e.key, l, e.change, resolver, owners(e.key));
    var l' := LocalStep(FinalPath(root, e.key), l, e.change).value;
    forall key | key in m'.jobs ensures StartedNotReady(root, key, LocalOf(m', key), resolver, owners(key)) {
      if key != e.key {
        OthersUntouched(root, m, e, key);
      } else {
        SameFinal(m, m', e.key, l, l');
        NotReadyHere(root, key, l', LocalOf(m', key), resolver, owners(key));
      }
    }
  }

  lemma SameFinal(m: Machine, m': Machine, key: string, l: Local, l': Local)
    requires key in m.jobs && m' == WithLocal(m, key, NameOf(m.jobs[key]), l') && key in m'.jobs
    ensures LocalOf(m', key).job == l'.job && LocalOf(m', key).final == l'.final
  {
  }

  lemma NotReadyHere(root: string, key: string, l: Local, l': Local, resolver: string -> string, owner: Call)
    requires StartedNotReady(root, key, l, resolver, owner) && l'.job == l.job && l'.final == l.final
    ensures StartedNotReady(root, key, l', resolver, owner)
  {
  }

  lemma StepKeepsUndamaged(root: string, m: Machine, e: Event, resolver: string -> string, owners: Owners)
    requires Sound(m) && Undamaged(root, m, resolver, owners) && Regular(e, resolver, owners) && Next(root, m, e).Some?
    ensures Undamaged(root, Next(root, m, e).value, resolver, owners)
  {
    hide Next;
    hide Sound;
    hide Undamaged;
    if e.Start? {
      StartKeepsUndamaged(root, m, e, resolver, owners);
    } else {
      ActKeepsUndamaged(root, m, e, resolver, owners);
    }
  }

  lemma {:induction false} HistoryIsUndamaged(root: string, history: seq<Event>, resolver: string -> string, owners: Owners)
    requires Run(root, EMPTY, history).Some? && forall e :: e in history ==> Regular(e, resolver, owners)
    ensures Undamaged(root, Run(root, EMPTY, history).value, resolver, owners)
  {
    if history == [] {
    } else {
      var front, e := history[..|history| - 1], history[|history| - 1];
      HistoryIsUndamaged(root, front, resolver, owners);
      HistoryIsSound(root, front);
      assert e in history;
      StepKeepsUndamaged(root, Run(root, EMPTY, front).value, e, resolver, owners);
    }
  }

  /** Over all interleaved histories of calls with a fixed resolver, none of which shares a key with
      another version or tag, a directory found ready comes from one pass for that version and tag
      in which every command exited 0, and is untouched since. */
  lemma ReadyMeansIntact(root: string, history: seq<Event>, resolver: string -> string, version: string, tag: string)
    requires Run(root, EMPTY, history).Some? && Unambiguous(history)
    requires forall e :: e in history && e.Start? ==> e.resolved == resolver(e.tag)
    requires CacheReady(Run(root, EMPTY, history).value.cache, root, version, tag, resolver(tag))
    ensures var d := Run(root, EMPTY, history).value.cache.finals[CacheKey(version, tag)];
      d.version == version && d.tag == tag && d.exited == ALL_COMMANDS && !d.damaged
  {
    var owners: Owners := key => OwnerIn(history, key);
    forall e | e in history ensures Regular(e, resolver, owners) {
      if e.Start? {
        OwnerIsCaller(history, e);
      }
    }
    HistoryIsUndamaged(root, history, resolver, owners);
    ReadyMeansCompletePass(root, history, version, tag, resolver(tag));
  }

  /** A finder of the editable install that points into the directory and nowhere into a build
      directory: its name is one the glob of its directory matches. */
  ghost predicate GoodFinder(files: Files, name: string, middle: string, before: string, after: string, dirPath: string) {
    && name in files && name == "venv/lib/python3.11/site-packages/__editable___hermes_agent_" + middle + "_finder.py"
    && '/' !in middle
    && files[name] == Text(before + (dirPath + "/src") + after)
    && forall x, y :: before + (dirPath + "/src") + after != x + "/.building/" + y
  }

  lemma ContainsMeaning(text: string, part: string)
    ensures Contains(text, part) <==> exists x, y :: text == x + part + y
  {
    if Contains(text, part) {
      var i :| 0 <= i <= |text| && part <= text[i..];
      assert text == text[..i] + part + text[i + |part|..];
    }
    if exists x, y :: text == x + part + y {
      var x, y :| text == x + part + y;
      assert text[|x|..] == part + y;
    }
  }

  lemma FinderNameMeaning(name: string)
    ensures FinderName(name) <==>
      exists middle :: name == "venv/lib/python3.11/site-packages/__editable___hermes_agent_" + middle + "_finder.py" && '/' !in middle
  {
    var prefix, suffix := FINDER_PREFIX, FINDER_SUFFIX;
    assert prefix == "venv/lib/python3.11/site-packages/__editable___hermes_agent_" && suffix == "_finder.py";
    GlobMeaning(name, prefix, suffix);
  }

  lemma GlobMeaning(name: string, prefix: string, suffix: string)
    ensures (prefix <= name && |name| >= |prefix| + |suffix| && name[|name| - |suffix|..] == suffix
             && '/' !in name[|prefix|..|name| - |suffix|])
       <==> exists middle :: name == prefix + middle + suffix && '/' !in middle
  {
    if prefix <= name && |name| >= |prefix| + |suffix| && name[|name| - |suffix|..] == suffix {
      assert name == prefix + name[|prefix|..|name| - |suffix|] + suffix;
    }
    if exists middle :: name == prefix + middle + suffix && '/' !in middle {
      var middle :| name == prefix + middle + suffix && '/' !in middle;
      NameBetween(name, prefix, middle, suffix);
    }
  }

  lemma NameBetween(name: string, prefix: string, middle: string, suffix: string)
    requires name == prefix + middle + suffix
    ensures prefix <= name && |name| >= |prefix| + |suffix|
    ensures name[|name| - |suffix|..] == suffix && name[|prefix|..|name| - |suffix|] == middle
  {
  }

  lemma FinderMeaning(files: Files, dirPath: string)
    ensures EditablePointsAtCache(files, dirPath) <==>
      exists name, middle, before, after :: GoodFinder(files, name, middle, before, after, dirPath)
  {
    hide FinderName;
    hide Contains;
    if EditablePointsAtCache(files, dirPath) {
      var name :| name in files && FinderPointsAt(files, name, dirPath);
      FinderNameMeaning(name);
      ContainsMeaning(files[name].text, dirPath + "/src");
      ContainsMeaning(files[name].text, "/.building/");
      var middle :| name == "venv/lib/python3.11/site-packages/__editable___hermes_agent_" + middle + "_finder.py" && '/' !in middle;
      var before, after :| files[name].text == before + (dirPath + "/src") + after;
      assert GoodFinder(files, name, middle, before, after, dirPath);
    }
    if exists name, middle, before, after :: GoodFinder(files, name, middle, before, after, dirPath) {
      var name, middle, before, after :| GoodFinder(files, name, middle, before, after, dirPath);
      FinderNameMeaning(name);
      ContainsMeaning(files[name].text, dirPath + "/src");
      ContainsMeaning(files[name].text, "/.building/");
      assert FinderPointsAt(files, name, dirPath);
    }
  }

  /** A directory is ready exactly when its sentinel is the one a completed pass writes for this very
      place, version and tag, with the resolved commit if there is one, and the tool and an editable
      finder are there. */
  lemma ReadyMeaning(files: Files, dirPath: string, version: string, tag: string, resolved: string)
    ensures Ready(files, dirPath, version, tag, resolved) <==>
      && (exists commit :: ".ready.json" in files && (resolved == "" || commit == resolved) && files[".ready.json"] ==
            Payload(ReadyPayload(version, tag, commit, "editable-all", dirPath + "/venv/bin/hermes")))
      && "venv/bin/hermes" in files
      && exists name, middle, before, after :: GoodFinder(files, name, middle, before, after, dirPath)
  {
    hide GoodFinder;
    hide EditablePointsAtCache;
    FinderMeaning(files, dirPath);
    assert dirPath + "/" + CLI == dirPath + "/venv/bin/hermes";
    if Ready(files, dirPath, version, tag, resolved) {
      var p := files[SENTINEL].payload;
      assert p == ReadyPayload(version, tag, p.gitCommit, "editable-all", dirPath + "/venv/bin/hermes");
    }
  }

  /** A completed pass is found ready by the next call exactly when the command line tool and
      an editable finder are in place and the resolver gives no commit or the recorded one. */
  lemma CompletedPassIsReady(root: string, m: Machine, key: string, resolved: string)
    requires Sound(m) && key in m.jobs && m.jobs[key].step.WriteSentinel?
    ensures var job := m.jobs[key]; var after := Next(root, m, Act(key, Complete));
      && after.Some? && key in m.cache.finals
      && (CacheReady(after.value.cache, root, job.version, job.tag, resolved) <==>
            && CLI in m.cache.finals[key].files && EditablePointsAtCache(m.cache.finals[key].files, FinalPath(root, key))
            && (resolved == "" || resolved == job.commit))
  {
    var job, dirPath := m.jobs[key], FinalPath(root, key);
    var d := m.cache.finals[key];
    var marked := WithSentinel(d, Payload(PayloadOf(job, dirPath)));
    SentinelIsNoFinder(d.files, marked.files, dirPath);
  }

  /** The sentinel is neither the tool nor a finder. */
  lemma SentinelIsNoFinder(files: Files, marked: Files, dirPath: string)
    requires SENTINEL in marked && marked == files[SENTINEL := marked[SENTINEL]]
    ensures CLI in marked <==> CLI in files
    ensures EditablePointsAtCache(marked, dirPath) <==> EditablePointsAtCache(files, dirPath)
  {
    assert !FinderName(SENTINEL) && CLI != SENTINEL;
    assert forall name :: FinderPointsAt(files, name, dirPath) <==> FinderPointsAt(marked, name, dirPath);
  }

  /** A sentinel whose writing was cut short, or a crash anywhere before it, leaves a directory
      that is not ready. */
  lemma CutShortIsNotReady(root: string, m: Machine, key: string, c: Change, resolved: string)
    requires Sound(m) && key in m.jobs && (m.jobs[key].step.InFinal? || m.jobs[key].step.WriteSentinel?)
    requires Next(root, m, Act(key, c)).Some? && !c.Complete?
    ensures !CacheReady(Next(root, m, Act(key, c)).value.cache, root, m.jobs[key].version, m.jobs[key].tag, resolved)
  {
  }

  // ---------------------------------------------------------------------------
  // Why the keys must be unambiguous: two calls that share a key but not version and tag.

  /** A call has come to l by a history. */
  ghost predicate Reaches(root: string, m: Machine, history: seq<Event>, key: string, l: Local) {
    && Run(root, m, history).Some? && key in Run(root, m, history).value.jobs
    && LocalOf(Run(root, m, history).value, key) == l
  }

  lemma GoOn(root: string, m: Machine, history: seq<Event>, key: string, l: Local, c: Change)
    requires Reaches(root, m, history, key, l) && LocalStep(FinalPath(root, key), l, c).Some?
    requires LocalStep(FinalPath(root, key), l, c).value.job.Some?
    ensures Reaches(root, m, history + [Act(key, c)], key, LocalStep(FinalPath(root, key), l, c).value)
  {
    hide LocalStep;
    var e := Act(key, c);
    assert (history + [e])[..|history|] == history;
    LocalStepSameCall(FinalPath(root, key), l, c);
    var before := Run(root, m, history).value;
    LocalKept(before, key, LocalStep(FinalPath(root, key), l, c).value);
  }

  lemma LocalKept(m: Machine, key: string, l: Local)
    requires key in m.jobs && l.job.Some? && NameOf(l.job.value) == NameOf(m.jobs[key])
    ensures var m' := WithLocal(m, key, NameOf(m.jobs[key]), l); key in m'.jobs && LocalOf(m', key) == l
  {
    hide NameOf;
  }

  const SUCCESS := Exit(true, map[], "")

  /** A call that finds the directory of another version or tag in its place gets to removing it. */
  lemma GoesOnToClear(root: string, m: Machine, key: string, start: Event, l: Local) returns (history: seq<Event>, l': Local)
    requires Reaches(root, m, [start], key, l) && l.job.Some? && l.job.value.step == ClearBuild
    ensures Reaches(root, m, history, key, l') && history != [] && history[0] == start
    ensures forall i :: 1 <= i < |history| ==> history[i].Act?
    ensures l'.job.Some? && l'.job.value.step == ClearFinal && l'.final == l.final
  {
    hide Reaches;
    var p := FinalPath(root, key);
    history := [start];
    GoOn(root, m, history, key, l, Removed);
    history, l' := history + [Act(key, Removed)], LocalStep(p, l, Removed).value;
    GoOn(root, m, history, key, l', MakeDirs);
    history, l' := history + [Act(key, MakeDirs)], LocalStep(p, l', MakeDirs).value;
    for n := 0 to 4
      invariant Reaches(root, m, history, key, l') && history != [] && history[0] == start
      invariant forall i :: 1 <= i < |history| ==> history[i].Act?
      invariant l'.job.Some? && l'.job.value.step == if n == 4 then ClearFinal else InBuild(n)
      invariant l'.final == l.final && l'.build.Some? && SENTINEL !in l'.build.value.files
    {
      assert SparesSentinel(l'.build.value.files, SUCCESS.files);
      GoOn(root, m, history, key, l', SUCCESS);
      history, l' := history + [Act(key, SUCCESS)], LocalStep(p, l', SUCCESS).value;
    }
  }

  /** When two different calls share a key, one can damage the directory that is ready for the other
      and leave it ready: it finds it not ready for itself, rebuilds, and is cut short while removing
      it, with the sentinel, the tool and a finder still there. */
  lemma SharedKeyDamages(root: string, m: Machine, mine: Call, other: Call, request: string, resolved: string, finder: string)
    returns (history: seq<Event>)
    requires Sound(m) && CacheReady(m.cache, root, mine.version, mine.tag, resolved)
    requires CacheKey(other.version, other.tag) == CacheKey(mine.version, mine.tag) && other != mine
    requires CacheKey(mine.version, mine.tag) !in m.jobs && BuildFree(m, BuildName(other.version, other.tag, request))
    requires var key := CacheKey(mine.version, mine.tag);
      finder in m.cache.finals[key].files && FinderPointsAt(m.cache.finals[key].files, finder, FinalPath(root, key))
    ensures Run(root, m, history).Some?
    ensures var key, after := CacheKey(mine.version, mine.tag), Run(root, m, history).value.cache;
      && CacheReady(after, root, mine.version, mine.tag, resolved)
      && after.finals[key].damaged && after.finals[key].files == Keep(m.cache.finals[key].files, {SENTINEL, CLI, finder})
  {
    var key := CacheKey(mine.version, mine.tag);
    var d, kept := m.cache.finals[key], {SENTINEL, CLI, finder};
    var start := Start(other.version, other.tag, request, resolved);
    assert [start][..0] == [];
    var l := Local(Some(Job(other.version, other.tag, request, resolved, ClearBuild)),
                   Find(m.cache.building, BuildName(other.version, other.tag, request)), Some(d));
    assert Reaches(root, m, [start], key, l);
    var l';
    history, l' := GoesOnToClear(root, m, key, start, l);
    GoOn(root, m, history, key, l', Remove(kept));
    history := history + [Act(key, Remove(kept))];
    assert FinderPointsAt(Keep(d.files, kept), finder, FinalPath(root, key));
  }
}
