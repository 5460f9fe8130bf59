/** What the runs of a multi-step task do to the things its tools can take back: the reverse
    compensation of ron/agent/task_manager.py on values, and exactly when a task leaves the world as it
    found it.

    Four tools have a compensator: the endpoint volume with its mute flag, the display brightness, the
    blank document and the reminder (volume.py, brightness.py, folders.py and reminders.py under
    ron/agent/tools). The world holds the documents and reminders the task itself makes; between the
    steps the user may write to or delete such a document, and such a reminder may fire or be cancelled.
 */
module TaskRollback {
  import opened Common

  datatype Volume = Volume(level: int, muted: bool)
  datatype Document = Blank | Filled | Gone
  datatype Reminder = Pending | Fired | CalledOff

  datatype World = World(
    volume: Volume, brightness: int, documents: map<string, Document>, reminders: map<nat, Reminder>)

  datatype VolumeAction = GetVolume | SetVolume(level: int) | AdjustVolume(delta: int) | Mute | Unmute | Toggle
  datatype BrightnessAction = GetBrightness | SetBrightness(level: int) | AdjustBrightness(delta: int)

  /** A step of a task; `Elsewhere` is any tool without a compensator. */
  datatype Plan =
    | VolumeStep(volumeAction: VolumeAction)
    | BrightnessStep(brightnessAction: BrightnessAction)
    | CreateDocument
    | SetReminder
    | Elsewhere

  /** The part of a successful tool result that its compensator reads. */
  datatype StepResult =
    | VolumeResult(changed: bool, previous: Volume)
    | BrightnessResult(changed: bool, previousLevel: int)
    | DocumentResult(path: string)
    | ReminderResult(id: nat)
    | OtherResult

  datatype TaskStatus = Running | Waiting | Completed | Failed | Cancelled | TimedOut | Resolved

  function Clamp(level: int): int {
    if level < 0 then 0 else if level > 100 then 100 else level
  }

  predicate Sane(w: World) {
    0 <= w.volume.level <= 100 && 0 <= w.brightness <= 100
  }

  /** What the tool schemas let through: exact levels are percentages. */
  predicate Validated(p: Plan) {
    match p
    case VolumeStep(SetVolume(level)) => 0 <= level <= 100
    case BrightnessStep(SetBrightness(level)) => 0 <= level <= 100
    case _ => true
  }

  predicate IsFile(w: World, path: string) {
    path in w.documents && w.documents[path] != Gone
  }

  /** What a step is asked to do to the volume and the brightness. */
  function Intended(w: World, p: Plan): World {
    match p
    case VolumeStep(SetVolume(level)) => w.(volume := w.volume.(level := level))
    case VolumeStep(AdjustVolume(delta)) => w.(volume := w.volume.(level := Clamp(w.volume.level + delta)))
    case VolumeStep(Mute) => w.(volume := w.volume.(muted := true))
    case VolumeStep(Unmute) => w.(volume := w.volume.(muted := false))
    case VolumeStep(Toggle) => w.(volume := w.volume.(muted := !w.volume.muted))
    case BrightnessStep(SetBrightness(level)) => w.(brightness := level)
    case BrightnessStep(AdjustBrightness(delta)) => w.(brightness := Clamp(w.brightness + delta))
    case _ => w
  }

  /** The step did what it was asked, and its result remembers what it changed. */
  predicate Did(p: Plan, r: StepResult, w: World, v: World) {
    match (p, r)
    case (VolumeStep(action), VolumeResult(changed, previous)) =>
      v == Intended(w, p) && changed == (action != GetVolume) && (changed ==> previous == w.volume)
    case (BrightnessStep(action), BrightnessResult(changed, previousLevel)) =>
      v == Intended(w, p) && changed == (action != GetBrightness) && (changed ==> previousLevel == w.brightness)
    case (CreateDocument, DocumentResult(path)) =>
      !IsFile(w, path) && v == w.(documents := w.documents[path := Blank])
    case (SetReminder, ReminderResult(id)) =>
      id !in w.reminders && v == w.(reminders := w.reminders[id := Pending])
    case (Elsewhere, OtherResult) => v == w
    case _ => false
  }

  /** A step that did not succeed: no effect, its whole effect, or a document made and removed again. */
  ghost predicate Attempted(p: Plan, w: World, v: World) {
    || v == w
    || (exists r :: Did(p, r, w, v))
    || (p.CreateDocument? && exists path :: !IsFile(w, path) && v == w.(documents := w.documents[path := Gone]))
  }

  /** What the user and the reminder clock may do to what the task made. */
  predicate Tampered(w: World, v: World) {
    && v.volume == w.volume && v.brightness == w.brightness
    && v.documents.Keys == w.documents.Keys && v.reminders.Keys == w.reminders.Keys
    && (forall path | path in w.documents && w.documents[path] == Gone :: v.documents[path] == Gone)
    && (forall id | id in w.reminders && w.reminders[id] != Pending :: v.reminders[id] == w.reminders[id])
  }

  lemma TamperedTwice(u: World, w: World, v: World)
    requires Tampered(u, w) && Tampered(w, v)
    ensures Tampered(u, v)
  {
    forall path | path in u.documents && u.documents[path] == Gone ensures v.documents[path] == Gone {
      assert path in w.documents;
    }
    forall id | id in u.reminders && u.reminders[id] != Pending ensures v.reminders[id] == u.reminders[id] {
      assert id in w.reminders;
    }
  }

  // ---- the parts of the world

  datatype Part = VolumePart | BrightnessPart | DocumentPart(path: string) | ReminderPart(id: nat)

  datatype Content =
    | VolumeIs(volume: Volume)
    | BrightnessIs(level: int)
    | DocumentIs(document: Document)
    | ReminderIs(reminder: Reminder)

  /** A document never made is not there, a reminder never set will not come. */
  function At(p: Part, w: World): Content {
    match p
    case VolumePart => VolumeIs(w.volume)
    case BrightnessPart => BrightnessIs(w.brightness)
    case DocumentPart(path) => DocumentIs(if path in w.documents then w.documents[path] else Gone)
    case ReminderPart(id) => ReminderIs(if id in w.reminders then w.reminders[id] else CalledOff)
  }

  predicate Same(p: Part, w: World, v: World) {
    At(p, w) == At(p, v)
  }

  ghost predicate Alike(w: World, v: World) {
    forall p :: Same(p, w, v)
  }

  /** Nobody but the task changes such a part. */
  predicate Steady(c: Content) {
    match c
    case DocumentIs(document) => document == Gone
    case ReminderIs(reminder) => reminder != Pending
    case _ => true
  }

  predicate Fresh(w: World) {
    w.documents == map[] && w.reminders == map[]
  }

  lemma SteadyStays(p: Part, w: World, v: World)
    requires Tampered(w, v) && Steady(At(p, w))
    ensures Same(p, w, v)
  {
  }

  // ---- going forward

  /** A completed step and what happened to the world until the next one. */
  ghost predicate Passed(p: Plan, r: StepResult, w: World, v: World) {
    exists mid :: Did(p, r, w, mid) && Tampered(mid, v)
  }

  /** `worlds` are the states in which the completed steps began, and the one they led to. */
  ghost predicate History(steps: seq<Plan>, results: seq<StepResult>, worlds: seq<World>) {
    && |worlds| == |results| + 1 && |results| <= |steps|
    && forall k | 0 <= k < |results| :: Passed(steps[k], results[k], worlds[k], worlds[k + 1])
  }

  predicate Changes(r: StepResult, p: Part) {
    match p
    case VolumePart => r.VolumeResult? && r.changed
    case BrightnessPart => r.BrightnessResult? && r.changed
    case DocumentPart(path) => r == DocumentResult(path)
    case ReminderPart(id) => r == ReminderResult(id)
  }

  predicate Touched(results: seq<StepResult>, p: Part) {
    exists k :: 0 <= k < |results| && Changes(results[k], p)
  }

  lemma PassedBy(step: Plan, r: StepResult, w: World, v: World, p: Part)
    requires Passed(step, r, w, v) && Steady(At(p, w)) && !Changes(r, p)
    ensures Same(p, w, v)
  {
    var mid :| Did(step, r, w, mid) && Tampered(mid, v);
    assert Same(p, w, mid);
    SteadyStays(p, mid, v);
  }

  /** What the world is before a step changes a part for the first time is what the result remembers. */
  predicate Remembers(r: StepResult, p: Part, c: Content) {
    match p
    case VolumePart => r.VolumeResult? && c == VolumeIs(r.previous)
    case BrightnessPart => r.BrightnessResult? && c == BrightnessIs(r.previousLevel)
    case DocumentPart(_) => c == DocumentIs(Gone)
    case ReminderPart(_) => c == ReminderIs(CalledOff)
  }

  lemma DidRemembers(step: Plan, r: StepResult, w: World, v: World, p: Part)
    requires Passed(step, r, w, v) && Changes(r, p)
    ensures Remembers(r, p, At(p, w))
  {
    var mid :| Did(step, r, w, mid) && Tampered(mid, v);
  }

  /** The world after the steps, were each to do exactly what it is asked. */
  function Carry(w: World, steps: seq<Plan>): World {
    if steps == [] then w else Intended(Carry(w, steps[..|steps| - 1]), steps[|steps| - 1])
  }

  predicate SameEndpoints(w: World, v: World) {
    Same(VolumePart, w, v) && Same(BrightnessPart, w, v)
  }

  lemma {:induction false} Carried(steps: seq<Plan>, results: seq<StepResult>, worlds: seq<World>)
    requires History(steps, results, worlds)
    ensures SameEndpoints(worlds[|results|], Carry(worlds[0], steps[..|results|]))
  {
    hide Passed, Intended;
    if results != [] {
      var last := |results| - 1;
      Carried(steps, results[..last], worlds[..|results|]);
      assert steps[..|results|][..last] == steps[..last];
      PassedAsIntended(steps[last], results[last], worlds[last], worlds[last + 1]);
      IntendedAlike(worlds[last], Carry(worlds[0], steps[..last]), steps[last]);
    }
  }

  lemma PassedAsIntended(step: Plan, r: StepResult, w: World, v: World)
    requires Passed(step, r, w, v)
    ensures SameEndpoints(v, Intended(w, step))
  {
    var mid :| Did(step, r, w, mid) && Tampered(mid, v);
  }

  lemma IntendedAlike(w: World, v: World, step: Plan)
    requires SameEndpoints(w, v)
    ensures SameEndpoints(Intended(w, step), Intended(v, step))
  {
  }

  /** By how much a step moves the volume, if it only adjusts it. */
  function VolumeDelta(p: Plan): int {
    if p.VolumeStep? && p.volumeAction.AdjustVolume? then p.volumeAction.delta else 0
  }

  function BrightnessDelta(p: Plan): int {
    if p.BrightnessStep? && p.brightnessAction.AdjustBrightness? then p.brightnessAction.delta else 0
  }

  function Sum(deltas: seq<int>): int {
    if deltas == [] then 0 else Sum(deltas[..|deltas| - 1]) + deltas[|deltas| - 1]
  }

  function VolumeDeltas(steps: seq<Plan>): (deltas: seq<int>)
    ensures |deltas| == |steps| && forall k | 0 <= k < |steps| :: deltas[k] == VolumeDelta(steps[k])
  {
    seq(|steps|, k requires 0 <= k < |steps| => VolumeDelta(steps[k]))
  }

  function BrightnessDeltas(steps: seq<Plan>): (deltas: seq<int>)
    ensures |deltas| == |steps| && forall k | 0 <= k < |steps| :: deltas[k] == BrightnessDelta(steps[k])
  {
    seq(|steps|, k requires 0 <= k < |steps| => BrightnessDelta(steps[k]))
  }

  /** The levels on the way stay percentages. */
  predicate InRange(level: int, deltas: seq<int>) {
    forall k | 0 <= k <= |deltas| :: 0 <= level + Sum(deltas[..k]) <= 100
  }

  lemma FrontInRange(level: int, deltas: seq<int>)
    requires deltas != [] && InRange(level, deltas)
    ensures InRange(level, deltas[..|deltas| - 1]) && 0 <= level + Sum(deltas) <= 100
  {
    assert deltas[..|deltas|] == deltas;
    var front := deltas[..|deltas| - 1];
    forall k | 0 <= k <= |front| ensures 0 <= level + Sum(front[..k]) <= 100 {
      assert front[..k] == deltas[..k];
    }
  }

  predicate SetsNoVolume(steps: seq<Plan>) {
    forall k | 0 <= k < |steps| :: !(steps[k].VolumeStep? && steps[k].volumeAction.SetVolume?)
  }

  predicate SetsNoBrightness(steps: seq<Plan>) {
    forall k | 0 <= k < |steps| :: !(steps[k].BrightnessStep? && steps[k].brightnessAction.SetBrightness?)
  }

  /** Adjustments that stay in range add up. */
  lemma {:induction false} VolumeAddsUp(w: World, steps: seq<Plan>)
    requires SetsNoVolume(steps) && InRange(w.volume.level, VolumeDeltas(steps))
    ensures Carry(w, steps).volume.level == w.volume.level + Sum(VolumeDeltas(steps))
  {
    hide InRange;
    if steps != [] {
      var last := |steps| - 1;
      FrontInRange(w.volume.level, VolumeDeltas(steps));
      assert VolumeDeltas(steps)[..last] == VolumeDeltas(steps[..last]);
      VolumeAddsUp(w, steps[..last]);
    }
  }

  lemma {:induction false} BrightnessAddsUp(w: World, steps: seq<Plan>)
    requires SetsNoBrightness(steps) && InRange(w.brightness, BrightnessDeltas(steps))
    ensures Carry(w, steps).brightness == w.brightness + Sum(BrightnessDeltas(steps))
  {
    hide InRange;
    if steps != [] {
      var last := |steps| - 1;
      FrontInRange(w.brightness, BrightnessDeltas(steps));
      assert BrightnessDeltas(steps)[..last] == BrightnessDeltas(steps[..last]);
      BrightnessAddsUp(w, steps[..last]);
    }
  }

  // ---- coming back

  /** How a compensator ended: untouched world, level restored but mute not, or all restored. */
  datatype Compensation = Untouched | LevelOnly | Restored

  function Compensate(r: StepResult, c: Compensation, w: World): World {
    match r
    case VolumeResult(true, previous) =>
      (match c
       case Untouched => w
       case LevelOnly => w.(volume := w.volume.(level := previous.level))
       case Restored => w.(volume := previous))
    case BrightnessResult(true, previousLevel) =>
      if c == Restored then w.(brightness := previousLevel) else w
    case DocumentResult(path) =>
      if c == Restored then w.(documents := w.documents[path := Gone]) else w
    case ReminderResult(id) =>
      if c == Restored then w.(reminders := w.reminders[id := CalledOff]) else w
    case _ => w
  }

  /** What a compensator may report in a world: nothing to do, success, or a failure. A document is
      removed only while it is blank, a reminder called off only before it fires. */
  predicate Reported(r: StepResult, c: Compensation, report: Option<bool>, w: World) {
    && (report.None? <==> r.OtherResult? || (r.VolumeResult? && !r.changed) || (r.BrightnessResult? && !r.changed))
    && (report != Some(false) ==> c == Restored)
    && (r.DocumentResult? && c == Restored ==> At(DocumentPart(r.path), w) == DocumentIs(Blank))
    && (r.ReminderResult? && c == Restored ==> At(ReminderPart(r.id), w) != ReminderIs(Fired))
  }

  /** The completed results compensated last to first, with `how[k]` for result k. */
  function Rollback(results: seq<StepResult>, how: seq<Compensation>, w: World): World
    requires |how| == |results|
  {
    if results == [] then w
    else
      var last := |results| - 1;
      Rollback(results[..last], how[..last], Compensate(results[last], how[last], w))
  }

  predicate AllReported(results: seq<StepResult>, how: seq<Compensation>, reports: seq<Option<bool>>, w: World)
    requires |how| == |results| == |reports|
  {
    results == [] ||
    var last := |results| - 1;
    && Reported(results[last], how[last], reports[last], w)
    && AllReported(results[..last], how[..last], reports[..last], Compensate(results[last], how[last], w))
  }

  /** The earliest step that changed a part is the one whose compensation counts for it. */
  predicate FirstChangeRestored(results: seq<StepResult>, how: seq<Compensation>, p: Part)
    requires |how| == |results|
  {
    exists k :: 0 <= k < |results| && Changes(results[k], p) && how[k] == Restored && !Touched(results[..k], p)
  }

  /** Rollback brings a part back to where the task found it, from any world, as soon as the
      compensation of its earliest change succeeds, whatever the later compensations did. */
  lemma {:induction false} RollbackRestores(steps: seq<Plan>, results: seq<StepResult>, how: seq<Compensation>,
      worlds: seq<World>, w: World, p: Part)
    requires |how| == |results| && History(steps, results, worlds) && Steady(At(p, worlds[0]))
    requires FirstChangeRestored(results, how, p)
    ensures Same(p, Rollback(results, how, w), worlds[0])
  {
    hide Passed, Steady, Remembers, At;
    var last := |results| - 1;
    var k :| 0 <= k < |results| && Changes(results[k], p) && how[k] == Restored && !Touched(results[..k], p);
    var w' := Compensate(results[last], how[last], w);
    if k < last {
      assert results[..last][k] == results[k] && results[..last][..k] == results[..k];
      RollbackRestores(steps, results[..last], how[..last], worlds[..|results|], w', p);
    } else {
      LeftAlone(steps, results[..last], how[..last], worlds[..|results|], w', p);
      DidRemembers(steps[last], results[last], worlds[last], worlds[last + 1], p);
      CompensatedTo(results[last], w, p, At(p, worlds[last]));
    }
  }

  lemma CompensatedTo(r: StepResult, w: World, p: Part, c: Content)
    requires Changes(r, p) && Remembers(r, p, c)
    ensures At(p, Compensate(r, Restored, w)) == c
  {
  }

  lemma NotCompensated(r: StepResult, how: Compensation, w: World, p: Part)
    requires !Changes(r, p)
    ensures Same(p, Compensate(r, how, w), w)
  {
  }

  /** Steps that never changed a part left it alone, going forward and coming back. */
  lemma {:induction false} LeftAlone(steps: seq<Plan>, results: seq<StepResult>, how: seq<Compensation>,
      worlds: seq<World>, w: World, p: Part)
    requires |how| == |results| && History(steps, results, worlds) && Steady(At(p, worlds[0])) && !Touched(results, p)
    ensures Same(p, worlds[|results|], worlds[0])
    ensures Same(p, Rollback(results, how, w), w)
  {
    hide Passed, Steady, Compensate, Changes, At;
    if results != [] {
      var last := |results| - 1;
      assert !Touched(results[..last], p);
      assert !Changes(results[last], p);
      LeftAlone(steps, results[..last], how[..last], worlds[..|results|], Compensate(results[last], how[last], w), p);
      NotCompensated(results[last], how[last], w, p);
      PassedBy(steps[last], results[last], worlds[last], worlds[last + 1], p);
    }
  }

  lemma {:induction false} EarliestChange(results: seq<StepResult>, p: Part) returns (k: nat)
    requires Touched(results, p)
    ensures k < |results| && Changes(results[k], p) && !Touched(results[..k], p)
  {
    k :| 0 <= k < |results| && Changes(results[k], p);
    if Touched(results[..k], p) {
      var j := EarliestChange(results[..k], p);
      assert results[..k][..j] == results[..j];
      k := j;
    }
  }

  /** With every compensation successful, the world after rollback is the world before the task
      in exactly the parts that an earlier step changed or the failing step left alone. */
  lemma RollbackRestoresExactly(steps: seq<Plan>, results: seq<StepResult>, how: seq<Compensation>,
      worlds: seq<World>, w: World)
    requires |how| == |results| && History(steps, results, worlds) && Fresh(worlds[0])
    requires forall k | 0 <= k < |how| :: how[k] == Restored
    ensures Alike(Rollback(results, how, w), worlds[0]) <==>
            forall p :: Touched(results, p) || Same(p, w, worlds[|results|])
  {
    hide Touched, Changes, Rollback, Passed;
    forall p
      ensures Same(p, Rollback(results, how, w), worlds[0]) <==> Touched(results, p) || Same(p, w, worlds[|results|])
    {
      assert Steady(At(p, worlds[0]));
      if Touched(results, p) {
        var k := EarliestChange(results, p);
        RollbackRestores(steps, results, how, worlds, w, p);
      } else {
        LeftAlone(steps, results, how, worlds, w, p);
      }
    }
  }

  /** No compensator removes what the user wrote, or touches a reminder that fired. */
  lemma {:induction false} RollbackKeepsUserWork(results: seq<StepResult>, how: seq<Compensation>,
      reports: seq<Option<bool>>, w: World, p: Part)
    requires |how| == |results| == |reports| && AllReported(results, how, reports, w)
    requires At(p, w) in {DocumentIs(Filled), ReminderIs(Fired)}
    ensures Same(p, Rollback(results, how, w), w)
  {
    if results != [] {
      var last := |results| - 1;
      var w' := Compensate(results[last], how[last], w);
      assert Same(p, w', w);
      RollbackKeepsUserWork(results[..last], how[..last], reports[..last], w', p);
    }
  }

  lemma {:induction false} NoFailureReported(results: seq<StepResult>, how: seq<Compensation>,
      reports: seq<Option<bool>>, w: World)
    requires |how| == |results| == |reports| && AllReported(results, how, reports, w) && Some(false) !in reports
    ensures forall k | 0 <= k < |how| :: how[k] == Restored
  {
    if results != [] {
      var last := |results| - 1;
      NoFailureReported(results[..last], how[..last], reports[..last], Compensate(results[last], how[last], w));
      assert reports[last] != Some(false);
      assert forall k | 0 <= k < last :: how[..last][k] == how[k];
    }
  }

  // ---- whole tasks

  /** A task from its first step on: how it stands, the completed results with the worlds they began in,
      the world in which it stopped, the rollback if there was one, and the world now. */
  datatype Ending = Ending(status: TaskStatus, waited: bool, results: seq<StepResult>, worlds: seq<World>,
    stopped: World, how: seq<Compensation>, reports: seq<Option<bool>>, world: World)

  /** All steps done. */
  predicate CompletedRun(steps: seq<Plan>, e: Ending)
    requires |e.worlds| == |e.results| + 1
  {
    !e.waited && |e.results| == |steps| && e.how == [] && e.reports == [] && e.world == e.worlds[|e.results|]
  }

  /** A tool asked the user back; since then the task waits, or was cancelled or resolved. Nothing is
      compensated. */
  predicate WaitedRun(steps: seq<Plan>, e: Ending)
    requires |e.worlds| == |e.results| + 1
  {
    && e.waited && |e.results| < |steps| && steps[|e.results|].Elsewhere?
    && e.status in {Waiting, Cancelled, Resolved}
    && e.how == [] && e.reports == [] && e.stopped == e.worlds[|e.results|] && Tampered(e.stopped, e.world)
  }

  /** Stopped by a step or between two, and rolled back. */
  ghost predicate RolledBackRun(steps: seq<Plan>, e: Ending)
    requires |e.worlds| == |e.results| + 1
  {
    && !e.waited && |e.results| < |steps| && |e.how| == |e.results| == |e.reports|
    && e.status in {Failed, Cancelled, TimedOut}
    && ((e.status == Cancelled && e.stopped == e.worlds[|e.results|])
        || Stopped(steps[|e.results|], e.worlds[|e.results|], e.stopped))
    && AllReported(e.results, e.how, e.reports, e.stopped)
    && e.world == Rollback(e.results, e.how, e.stopped)
  }

  ghost predicate Stopped(p: Plan, w: World, v: World) {
    exists mid :: Attempted(p, w, mid) && Tampered(mid, v)
  }

  ghost predicate IsRun(steps: seq<Plan>, start: World, e: Ending) {
    && Fresh(start) && History(steps, e.results, e.worlds) && e.worlds[0] == start
    && match e.status
       case Running => false
       case Completed => CompletedRun(steps, e)
       case _ => if e.waited then WaitedRun(steps, e) else RolledBackRun(steps, e)
  }

  /** The document or reminder a step made is no longer there, or will no longer come. */
  predicate TakenAway(r: StepResult, w: World) {
    match r
    case DocumentResult(path) => At(DocumentPart(path), w) == DocumentIs(Gone)
    case ReminderResult(id) => At(ReminderPart(id), w) == ReminderIs(CalledOff)
    case _ => true
  }

  /** Exactly when a task that did not complete leaves the world as it found it, no rollback failure
      being reported. Rolled back: if each part was changed by a completed step or left alone by the one
      that stopped it. Waiting for an answer, or closed while it waited: only if the completed steps ask
      for the volume and brightness there were, and whatever they made has been taken away since. */
  lemma WorldIsBackExactly(steps: seq<Plan>, start: World, e: Ending)
    requires IsRun(steps, start, e) && e.status != Completed && Some(false) !in e.reports
    ensures !e.waited ==>
      (Alike(e.world, start) <==> forall p :: Touched(e.results, p) || Same(p, e.stopped, e.worlds[|e.results|]))
    ensures e.waited ==>
      (Alike(e.world, start) <==>
         && SameEndpoints(Carry(start, steps[..|e.results|]), start)
         && forall r | r in e.results :: TakenAway(r, e.world))
  {
    if e.waited {
      WaitedIsBackExactly(steps, start, e);
    } else {
      NoFailureReported(e.results, e.how, e.reports, e.stopped);
      RollbackRestoresExactly(steps, e.results, e.how, e.worlds, e.stopped);
    }
  }

  lemma WaitedIsBackExactly(steps: seq<Plan>, start: World, e: Ending)
    requires IsRun(steps, start, e) && e.waited
    ensures Alike(e.world, start) <==>
      && SameEndpoints(Carry(start, steps[..|e.results|]), start)
      && forall r | r in e.results :: TakenAway(r, e.world)
  {
    hide Passed, Changes, Carry;
    Carried(steps, e.results, e.worlds);
    if Alike(e.world, start) {
      assert Same(VolumePart, e.world, start) && Same(BrightnessPart, e.world, start);
      forall r | r in e.results ensures TakenAway(r, e.world) {
        match r
        case DocumentResult(path) => assert Same(DocumentPart(path), e.world, start);
        case ReminderResult(id) => assert Same(ReminderPart(id), e.world, start);
        case _ =>
      }
    }
    if SameEndpoints(Carry(start, steps[..|e.results|]), start) && forall r | r in e.results :: TakenAway(r, e.world) {
      forall p ensures Same(p, e.world, start) {
        MadeIsTakenAway(steps, start, e, p);
      }
    }
  }

  lemma MadeIsTakenAway(steps: seq<Plan>, start: World, e: Ending, p: Part)
    requires IsRun(steps, start, e) && e.waited && SameEndpoints(e.worlds[|e.results|], start)
    requires forall r | r in e.results :: TakenAway(r, e.world)
    ensures Same(p, e.world, start)
  {
    hide Passed;
    if p.DocumentPart? || p.ReminderPart? {
      if Touched(e.results, p) {
        var k :| 0 <= k < |e.results| && Changes(e.results[k], p);
        assert TakenAway(e.results[k], e.world);
      } else {
        var how := seq(|e.results|, _ => Restored);
        LeftAlone(steps, e.results, how, e.worlds, start, p);
        SteadyStays(p, e.stopped, e.world);
      }
    }
  }

  /** No run of a task removes what the user wrote into its documents, or calls off a fired reminder,
      after the step that stopped it. */
  lemma UserWorkIsKept(steps: seq<Plan>, start: World, e: Ending, p: Part)
    requires IsRun(steps, start, e) && !e.waited && e.status != Completed
    requires At(p, e.stopped) in {DocumentIs(Filled), ReminderIs(Fired)}
    ensures Same(p, e.world, e.stopped)
  {
    RollbackKeepsUserWork(e.results, e.how, e.reports, e.stopped, p);
  }

  /** A task that turns the volume down and then asks which track was meant: cancelled while it waits, it
      leaves the volume down although no compensation failed and the last step touched nothing. */
  lemma WaitingKeepsTheVolume() returns (steps: seq<Plan>, start: World, e: Ending)
    ensures steps == [VolumeStep(SetVolume(20)), Elsewhere] && start == World(Volume(50, false), 40, map[], map[])
    ensures IsRun(steps, start, e) && e.status == Cancelled && Some(false) !in e.reports
    ensures forall p :: Same(p, e.stopped, e.worlds[|e.results|])
    ensures At(VolumePart, e.world) == VolumeIs(Volume(20, false)) && !Alike(e.world, start)
  {
    steps, start := [VolumeStep(SetVolume(20)), Elsewhere], World(Volume(50, false), 40, map[], map[]);
    var down := start.(volume := Volume(20, false));
    var r := VolumeResult(true, start.volume);
    e := Ending(Cancelled, true, [r], [start, down], down, [], [], down);
    assert Did(steps[0], r, start, down) && Tampered(down, down);
    assert Passed(steps[0], r, start, down);
    assert !Same(VolumePart, e.world, start);
  }

  /** A step that reaches its deadline after it took effect: the rollback has nothing to take back. */
  lemma LateStepKeepsItsEffect() returns (steps: seq<Plan>, start: World, e: Ending)
    ensures steps == [VolumeStep(SetVolume(20))] && start == World(Volume(50, false), 40, map[], map[])
    ensures IsRun(steps, start, e) && e.status == TimedOut && Some(false) !in e.reports
    ensures !Alike(e.world, start)
  {
    steps, start := [VolumeStep(SetVolume(20))], World(Volume(50, false), 40, map[], map[]);
    var down := start.(volume := Volume(20, false));
    e := Ending(TimedOut, false, [], [start], down, [], [], down);
    assert Did(steps[0], VolumeResult(true, start.volume), start, down) && Tampered(down, down);
    assert Attempted(steps[0], start, down);
    assert !Same(VolumePart, e.world, start);
  }
}
