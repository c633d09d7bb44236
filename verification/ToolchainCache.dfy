/** The build protocol of the toolchain cache (HermesToolchainCache in
    hermes_vps_app/hermes_live_metadata.py) as a step machine over a small file system. Calls for
    different cache keys interleave; one lock per key keeps calls for the same key apart. Any step
    can be the last one of a call: commands fail, removals stop half-way, writes tear. */
module ToolchainCache {
  import opened Collections

  const SENTINEL := ".ready.json"
  const CLI := "venv/bin/hermes"
  const SITE_PACKAGES := "venv/lib/python3.11/site-packages/"

  datatype ReadyPayload = ReadyPayload(
    semanticVersion: string, releaseTag: string, gitCommit: string, installMode: string, cliPath: string)

  /** File contents: text, a complete ready payload, or one whose writing was cut short (a proper
      prefix of a JSON object, which no JSON parser accepts). */
  datatype Content = Text(text: string) | Payload(payload: ReadyPayload) | Torn

  type Files = map<string, Content>

  datatype Command = Clone | RevParse | CreateVenv | Install | Reinstall | SmokeTest | ImportCheck

  const ALL_COMMANDS: seq<Command> := [Clone, RevParse, CreateVenv, Install, Reinstall, SmokeTest, ImportCheck]

  /** A directory, with the history of how it came about: the version and tag of the one pass
      that made it, the commands that exited 0 in it, and whether files were removed since. */
  datatype Dir = Dir(files: Files, version: string, tag: string, exited: seq<Command>, damaged: bool)

  /** The directories below the root: final ones by cache key, half-built ones by name. */
  datatype Cache = Cache(finals: map<string, Dir>, building: map<string, Dir>)

  datatype Step =
    | ClearBuild | MakeBuild | InBuild(n: nat) | ClearFinal | Move | InFinal(n: nat) | WriteSentinel

  /** A running call of prepare; commit is what is known of the checked-out commit. */
  datatype Job = Job(version: string, tag: string, request: string, commit: string, step: Step)

  /** The disk and the running calls by cache key. */
  datatype Machine = Machine(cache: Cache, jobs: map<string, Job>)

  function CacheKey(version: string, tag: string): string {
    version + "-" + tag
  }

  function BuildName(version: string, tag: string, request: string): string {
    CacheKey(version, tag) + "-" + request
  }

  function NameOf(job: Job): string {
    BuildName(job.version, job.tag, job.request)
  }

  /** Where a final directory lives, below a fixed root. */
  function FinalPath(root: string, key: string): string {
    root + "/" + key
  }

  predicate Contains(text: string, part: string) {
    exists i :: 0 <= i <= |text| && part <= text[i..]
  }

  const FINDER_PREFIX := SITE_PACKAGES + "__editable___hermes_agent_"
  const FINDER_SUFFIX := "_finder.py"

  /** The names the glob of one directory level matches. */
  predicate FinderName(name: string) {
    && FINDER_PREFIX <= name && |name| >= |FINDER_PREFIX| + |FINDER_SUFFIX|
    && name[|name| - |FINDER_SUFFIX|..] == FINDER_SUFFIX
    && '/' !in name[|FINDER_PREFIX|..|name| - |FINDER_SUFFIX|]
  }

  predicate FinderPointsAt(files: Files, name: string, dirPath: string) {
    && name in files && FinderName(name) && files[name].Text?
    && Contains(files[name].text, dirPath + "/src") && !Contains(files[name].text, "/.building/")
  }

  /** Some editable-install finder points into the directory and not into a build directory. */
  predicate EditablePointsAtCache(files: Files, dirPath: string) {
    exists name :: name in files && FinderPointsAt(files, name, dirPath)
  }

  /** The readiness check. An empty resolved commit stands for none. */
  predicate Ready(files: Files, dirPath: string, version: string, tag: string, resolved: string) {
    && SENTINEL in files && CLI in files
    && files[SENTINEL].Payload?
    && var p := files[SENTINEL].payload;
       && p.semanticVersion == version && p.releaseTag == tag && p.installMode == "editable-all"
       && p.cliPath == dirPath + "/" + CLI
       && (resolved != "" ==> p.gitCommit == resolved)
       && EditablePointsAtCache(files, dirPath)
  }

  predicate CacheReady(cache: Cache, root: string, version: string, tag: string, resolved: string) {
    var key := CacheKey(version, tag);
    key in cache.finals && Ready(cache.finals[key].files, FinalPath(root, key), version, tag, resolved)
  }

  /** What can happen to a running call. */
  datatype Change =
    | Remove(kept: set<string>)                // part of a tree removal
    | Removed                                  // the tree is gone
    | MakeDirs
    | Exit(ok: bool, files: Files, output: string)  // the command of this step ends
    | Replace                                  // the build directory becomes the final one
    | Tear                                     // the sentinel is half-written
    | Complete                                 // the sentinel is written
    | Crash

  datatype Event =
    | Start(version: string, tag: string, request: string, resolved: string)
    | Act(key: string, change: Change)

  function KeyOfEvent(e: Event): string {
    match e
    case Start(version, tag, _, _) => CacheKey(version, tag)
    case Act(key, _) => key
  }

  /** Commands do what they like to a directory except touch its sentinel. */
  predicate SparesSentinel(before: Files, after: Files) {
    (SENTINEL in before <==> SENTINEL in after)
    && (SENTINEL in before ==> after[SENTINEL] == before[SENTINEL])
  }

  function Keep(files: Files, kept: set<string>): Files {
    map name | name in files && name in kept :: files[name]
  }

  function Shrink(d: Dir, kept: set<string>): Dir {
    d.(files := Keep(d.files, kept), damaged := true)
  }

  function PayloadOf(job: Job, dirPath: string): ReadyPayload {
    ReadyPayload(job.version, job.tag, job.commit, "editable-all", dirPath + "/" + CLI)
  }

  function WithSentinel(d: Dir, c: Content): Dir {
    d.(files := d.files[SENTINEL := c])
  }

  /** The commit after the n-th command: the second one, when it prints anything, says it. */
  function CommitAfter(n: nat, commit: string, output: string): string {
    if n != 1 then commit else if output != "" then output else if commit != "" then commit else "unknown"
  }

  /** What one call can see and change: itself, its build directory and its final directory. */
  datatype Local = Local(job: Option<Job>, build: Option<Dir>, final: Option<Dir>)

  function AtStep(l: Local, step: Step): Local
    requires l.job.Some?
  {
    l.(job := Some(l.job.value.(step := step)))
  }

  /** The end of the n-th command in d: with it counted, or without it and the call over. */
  function Ran(d: Dir, n: nat, c: Change): Dir
    requires n < 7 && c.Exit?
  {
    if c.ok then d.(files := c.files, exited := d.exited + [ALL_COMMANDS[n]]) else d.(files := c.files)
  }

  function BuildStep(l: Local, n: nat, c: Change): Option<Local>
    requires l.job.Some?
  {
    if c.Exit? && n < 4 && l.build.Some? && SparesSentinel(l.build.value.files, c.files) then
      var built := l.(build := Some(Ran(l.build.value, n, c)));
      if c.ok then
        var job := l.job.value.(commit := CommitAfter(n, l.job.value.commit, c.output));
        Some(built.(job := Some(job.(step := if n == 3 then ClearFinal else InBuild(n + 1)))))
      else Some(built.(job := None))
    else None
  }

  function FinalStep(l: Local, n: nat, c: Change): Option<Local>
    requires l.job.Some?
  {
    if c.Exit? && 4 <= n < 7 && l.final.Some? && SparesSentinel(l.final.value.files, c.files) then
      var ran := l.(final := Some(Ran(l.final.value, n, c)));
      if c.ok then Some(AtStep(ran, if n == 6 then WriteSentinel else InFinal(n + 1)))
      else Some(ran.(job := None))
    else None
  }

  function SentinelStep(dirPath: string, l: Local, c: Change): Option<Local>
    requires l.job.Some?
  {
    if l.final.None? then None
    else if c.Tear? then Some(Local(None, l.build, Some(WithSentinel(l.final.value, Torn))))
    else if c.Complete? then
      Some(Local(None, l.build, Some(WithSentinel(l.final.value, Payload(PayloadOf(l.job.value, dirPath))))))
    else None
  }

  /** A tree removal: some files go, or all of them and the directory. */
  function RemovalOf(d: Option<Dir>, c: Change): Option<Option<Dir>> {
    if c.Removed? then Some(None)
    else if c.Remove? && d.Some? then Some(Some(Shrink(d.value, c.kept)))
    else None
  }

  /** One step of a running call; None when the change cannot happen now. */
  function LocalStep(dirPath: string, l: Local, c: Change): Option<Local>
    requires l.job.Some?
  {
    if c.Crash? then Some(l.(job := None))
    else
      match l.job.value.step
      case ClearBuild =>
        (match RemovalOf(l.build, c)
         case None => None
         case Some(build) => Some(if c.Removed? then AtStep(l.(build := build), MakeBuild) else l.(build := build)))
      case MakeBuild =>
        if c.MakeDirs? then
          Some(AtStep(l.(build := Some(Dir(map[], l.job.value.version, l.job.value.tag, [], false))), InBuild(0)))
        else None
      case InBuild(n) => BuildStep(l, n, c)
      case ClearFinal =>
        (match RemovalOf(l.final, c)
         case None => None
         case Some(final) => Some(if c.Removed? then AtStep(l.(final := final), Move) else l.(final := final)))
      case Move =>
        if c.Replace? && l.build.Some? then Some(AtStep(l.(build := None, final := l.build), InFinal(4))) else None
      case InFinal(n) => FinalStep(l, n, c)
      case WriteSentinel => SentinelStep(dirPath, l, c)
  }

  function Find<T>(m: map<string, T>, key: string): Option<T> {
    if key in m then Some(m[key]) else None
  }

  function Update<T>(m: map<string, T>, key: string, value: Option<T>): map<string, T> {
    if value.Some? then m[key := value.value] else m - {key}
  }

  function LocalOf(m: Machine, key: string): Local
    requires key in m.jobs
  {
    Local(Some(m.jobs[key]), Find(m.cache.building, NameOf(m.jobs[key])), Find(m.cache.finals, key))
  }

  /** m after the call for key, which builds in name, has come to l. */
  function WithLocal(m: Machine, key: string, name: string, l: Local): Machine {
    Machine(Cache(Update(m.cache.finals, key, l.final), Update(m.cache.building, name, l.build)),
            Update(m.jobs, key, l.job))
  }

  /** No running call builds in a directory of that name. */
  predicate BuildFree(m: Machine, name: string) {
    forall key :: key in m.jobs ==> NameOf(m.jobs[key]) != name
  }

  /** One event; None when it cannot happen now. A call starts when no other holds the lock of its
      key, and with a build directory of its own. */
  function Next(root: string, m: Machine, e: Event): Option<Machine> {
    match e
    case Start(version, tag, request, resolved) =>
      var key := CacheKey(version, tag);
      if key in m.jobs || !BuildFree(m, BuildName(version, tag, request)) then None
      else if CacheReady(m.cache, root, version, tag, resolved) then Some(m)
      else Some(m.(jobs := m.jobs[key := Job(version, tag, request, resolved, ClearBuild)]))
    case Act(key, change) =>
      if key !in m.jobs then None
      else
        match LocalStep(FinalPath(root, key), LocalOf(m, key), change)
        case None => None
        case Some(l) => Some(WithLocal(m, key, NameOf(m.jobs[key]), l))
  }

  const EMPTY := Machine(Cache(map[], map[]), map[])

  /** Where a history leads; None when one of its events could not happen. */
  function Run(root: string, m: Machine, history: seq<Event>): Option<Machine> {
    if history == [] then Some(m)
    else
      match Run(root, m, history[..|history| - 1])
      case None => None
      case Some(before) => Next(root, before, history[|history| - 1])
  }

  // ---------------------------------------------------------------------------
  // Provenance: a readable sentinel certifies one complete pass.

  ghost predicate Certified(d: Dir) {
    SENTINEL in d.files && d.files[SENTINEL].Payload? ==>
      && d.exited == ALL_COMMANDS
      && d.files[SENTINEL].payload.semanticVersion == d.version
      && d.files[SENTINEL].payload.releaseTag == d.tag
  }

  /** d has seen exactly the first n commands of the call. */
  ghost predicate OfJob(d: Option<Dir>, job: Job, n: nat)
    requires n <= 7
  {
    && d.Some? && d.value.version == job.version && d.value.tag == job.tag
    && d.value.exited == ALL_COMMANDS[..n] && !d.value.damaged && SENTINEL !in d.value.files
  }

  /** The directory a call works on is its own and has seen exactly its commands so far. */
  ghost predicate OnTrack(l: Local) {
    l.job.Some? ==>
      match l.job.value.step
      case ClearBuild => true
      case MakeBuild => true
      case InBuild(n) => n < 4 && OfJob(l.build, l.job.value, n)
      case ClearFinal => OfJob(l.build, l.job.value, 4)
      case Move => OfJob(l.build, l.job.value, 4) && l.final.None?
      case InFinal(n) => 4 <= n < 7 && OfJob(l.final, l.job.value, n)
      case WriteSentinel => OfJob(l.final, l.job.value, 7)
  }

  ghost predicate SoundLocal(l: Local) {
    && OnTrack(l)
    && (l.build.Some? ==> SENTINEL !in l.build.value.files)
    && (l.final.Some? ==> Certified(l.final.value))
  }

  /** Running calls are for their keys, build in different directories and are on track. */
  ghost predicate SoundJobs(m: Machine) {
    && (forall key :: key in m.jobs ==> CacheKey(m.jobs[key].version, m.jobs[key].tag) == key && OnTrack(LocalOf(m, key)))
    && (forall a, b :: a in m.jobs && b in m.jobs && a != b ==> NameOf(m.jobs[a]) != NameOf(m.jobs[b]))
  }

  ghost predicate Sound(m: Machine) {
    && SoundJobs(m)
    && (forall name :: name in m.cache.building ==> SENTINEL !in m.cache.building[name].files)
    && (forall key :: key in m.cache.finals ==> Certified(m.cache.finals[key]))
  }

  lemma CommandCounts(n: nat)
    requires n < 7
    ensures ALL_COMMANDS[..n] + [ALL_COMMANDS[n]] == ALL_COMMANDS[..n + 1] && ALL_COMMANDS[..7] == ALL_COMMANDS
  {
  }

  lemma RanKeepsTrack(d: Dir, job: Job, n: nat, c: Change)
    requires n < 7 && c.Exit? && OfJob(Some(d), job, n) && SparesSentinel(d.files, c.files)
    ensures SENTINEL !in Ran(d, n, c).files && Certified(Ran(d, n, c))
    ensures c.ok ==> OfJob(Some(Ran(d, n, c)), job, n + 1)
  {
    CommandCounts(n);
  }

  lemma BuildStepSound(l: Local, n: nat, c: Change)
    requires SoundLocal(l) && l.job.Some? && l.job.value.step == InBuild(n) && BuildStep(l, n, c).Some?
    ensures SoundLocal(BuildStep(l, n, c).value)
  {
    hide Certified;
    hide OfJob;
    hide SparesSentinel;
    RanKeepsTrack(l.build.value, l.job.value, n, c);
    SameJobDirs(l.build.value, l.job.value, n, c);
  }

  /** What a directory has seen of a call does not depend on where the call is or on its commit. */
  lemma SameJobDirs(d: Dir, job: Job, n: nat, c: Change)
    requires n < 7 && c.Exit?
    ensures forall commit, step :: OfJob(Some(Ran(d, n, c)), job, n + 1) ==>
      OfJob(Some(Ran(d, n, c)), job.(commit := commit, step := step), n + 1)
    ensures OfJob(Some(d), job, n) ==> Some(d).Some? && SENTINEL !in d.files
  {
  }

  lemma FinalStepSound(l: Local, n: nat, c: Change)
    requires SoundLocal(l) && l.job.Some? && l.job.value.step == InFinal(n) && FinalStep(l, n, c).Some?
    ensures SoundLocal(FinalStep(l, n, c).value)
  {
    RanKeepsTrack(l.final.value, l.job.value, n, c);
  }

  lemma SentinelStepSound(dirPath: string, l: Local, c: Change)
    requires SoundLocal(l) && l.job.Some? && l.job.value.step == WriteSentinel && SentinelStep(dirPath, l, c).Some?
    ensures SoundLocal(SentinelStep(dirPath, l, c).value)
  {
    CommandCounts(6);
  }

  lemma ClearingStepSound(dirPath: string, l: Local, c: Change)
    requires SoundLocal(l) && l.job.Some? && LocalStep(dirPath, l, c).Some?
    requires l.job.value.step.ClearBuild? || l.job.value.step.MakeBuild? || l.job.value.step.ClearFinal? || l.job.value.step.Move?
    ensures SoundLocal(LocalStep(dirPath, l, c).value)
  {
    assert ALL_COMMANDS[..0] == [];
  }

  lemma LocalStepSound(dirPath: string, l: Local, c: Change)
    requires SoundLocal(l) && l.job.Some? && LocalStep(dirPath, l, c).Some?
    ensures SoundLocal(LocalStep(dirPath, l, c).value)
  {
    hide BuildStep;
    hide FinalStep;
    hide SentinelStep;
    if !c.Crash? {
      match l.job.value.step
      case InBuild(n) => BuildStepSound(l, n, c);
      case InFinal(n) => FinalStepSound(l, n, c);
      case WriteSentinel => SentinelStepSound(dirPath, l, c);
      case _ => ClearingStepSound(dirPath, l, c);
    }
  }

  /** A step keeps what identifies the call. */
  lemma LocalStepSameCall(dirPath: string, l: Local, c: Change)
    requires l.job.Some? && LocalStep(dirPath, l, c).Some? && LocalStep(dirPath, l, c).value.job.Some?
    ensures var job := LocalStep(dirPath, l, c).value.job.value;
      job.version == l.job.value.version && job.tag == l.job.value.tag && job.request == l.job.value.request
  {
  }

  /** What one call does is invisible to another, which builds in another directory. */
  lemma ElsewhereUntouched(m: Machine, key: string, l: Local, other: string)
    requires key in m.jobs && other in m.jobs && key != other && NameOf(m.jobs[key]) != NameOf(m.jobs[other])
    ensures var m' := WithLocal(m, key, NameOf(m.jobs[key]), l); other in m'.jobs && LocalOf(m', other) == LocalOf(m, other)
  {
    hide NameOf;
  }

  /** An event of one key changes nothing that a running call for another key can see. */
  lemma OthersUntouched(root: string, m: Machine, e: Event, key: string)
    requires Sound(m) && key in m.jobs && KeyOfEvent(e) != key && Next(root, m, e).Some?
    ensures key in Next(root, m, e).value.jobs && LocalOf(Next(root, m, e).value, key) == LocalOf(m, key)
  {
    hide LocalStep;
    hide CacheReady;
    hide WithLocal;
    if e.Act? {
      ElsewhereUntouched(m, e.key, LocalStep(FinalPath(root, e.key), LocalOf(m, e.key), e.change).value, key);
    } else {
      NewCallElsewhere(m, Next(root, m, e).value, KeyOfEvent(e), key);
    }
  }

  lemma NewCallElsewhere(m: Machine, m': Machine, key: string, other: string)
    requires other in m.jobs && key != other && m'.cache == m.cache
    requires m' == m || (key in m'.jobs && m'.jobs == m.jobs[key := m'.jobs[key]])
    ensures other in m'.jobs && LocalOf(m', other) == LocalOf(m, other)
  {
  }

  lemma StartKeepsSound(root: string, m: Machine, e: Event)
    requires Sound(m) && e.Start? && Next(root, m, e).Some?
    ensures Sound(Next(root, m, e).value)
  {
    hide CacheReady;
    var m' := Next(root, m, e).value;
    forall key | key in m'.jobs && key != KeyOfEvent(e) ensures LocalOf(m', key) == LocalOf(m, key) {
    }
  }

  lemma ActKeepsSound(root: string, m: Machine, e: Event)
    requires Sound(m) && e.Act? && Next(root, m, e).Some?
    ensures Sound(Next(root, m, e).value)
  {
    hide LocalStep;
    hide OnTrack;
    hide Certified;
    var m', l := Next(root, m, e).value, LocalOf(m, e.key);
    var l' := LocalStep(FinalPath(root, e.key), l, e.change).value;
    LocalIsSound(m, e.key);
    LocalStepSound(FinalPath(root, e.key), l, e.change);
    forall key | key in m'.jobs && key != e.key ensures key in m.jobs && LocalOf(m', key) == LocalOf(m, key) {
      OthersUntouched(root, m, e, key);
    }
    if l'.job.Some? {
      LocalStepSameCall(FinalPath(root, e.key), l, e.change);
      assert LocalOf(m', e.key) == l';
    }
  }

  lemma LocalIsSound(m: Machine, key: string)
    requires Sound(m) && key in m.jobs
    ensures SoundLocal(LocalOf(m, key))
  {
  }

  lemma StepKeepsSound(root: string, m: Machine, e: Event)
    requires Sound(m) && Next(root, m, e).Some?
    ensures Sound(Next(root, m, e).value)
  {
    hide Next;
    hide Sound;
    if e.Start? {
      StartKeepsSound(root, m, e);
    } else {
      ActKeepsSound(root, m, e);
    }
  }

  lemma {:induction false} HistoryIsSound(root: string, history: seq<Event>)
    requires Run(root, EMPTY, history).Some?
    ensures Sound(Run(root, EMPTY, history).value)
  {
    if history == [] {
    } else {
      HistoryIsSound(root, history[..|history| - 1]);
      StepKeepsSound(root, Run(root, EMPTY, history[..|history| - 1]).value, history[|history| - 1]);
    }
  }

  /** Whatever has crashed or failed before, and however calls for different keys interleave, a
      directory is found ready only when all commands of one pass for that version and tag exited 0
      in it. */
  lemma ReadyMeansCompletePass(root: string, history: seq<Event>, version: string, tag: string, resolved: string)
    requires Run(root, EMPTY, history).Some?
    requires CacheReady(Run(root, EMPTY, history).value.cache, root, version, tag, resolved)
    ensures var d := Run(root, EMPTY, history).value.cache.finals[CacheKey(version, tag)];
      d.version == version && d.tag == tag && d.exited == ALL_COMMANDS
  {
    HistoryIsSound(root, history);
  }
}
