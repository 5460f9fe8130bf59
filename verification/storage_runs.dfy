/** Whole runs of the storage manager, told by the plain map they work on. */
module StorageRuns {
  import opened Common
  import opened StorageView
  import opened StorageManagement

  datatype Call =
    | Save(path: Path, data: Bytes)
    | Remove(path: Path)
    | Read(path: Path)
    | Refresh(found: Discovery, sync: bool, newId: Id)
    | Synchronise
    | RestartProgram
    | PlugIn(drive: Drive, files: Files)
    | Weather(calm: bool, roomy: bool)

  datatype Answer =
    | ToSave(save: SaveEnd)
    | ToRemove(remove: DeleteEnd)
    | ToRead(read: ReadEnd)
    | Nothing

  /** Another drive coming into use: the laptop's share of the map, and the files of the drive before and
      of the one that takes its place. */
  datatype Exchange = Exchange(queued: Files, deleted: set<Path>, left: Files, taken: Files)

  /** What the storage stands for at a moment, the state it shows, what is queued, and whether anything on
      a disk can fail and the laptop's has space. */
  datatype Moment = Moment(
    view: Files, state: State, rows: map<Path, Row>, limit: nat, calm: bool, roomy: bool)

  ghost function Now(m: StorageManager): Moment
    reads m
  {
    Moment(m.View(), m.state, m.rows, m.queueLimit, m.calm, m.roomy)
  }

  /** The plain map before and after one call. A refresh can exchange the drive under what is queued, and
      a read while online misses nothing. While nothing fails every save and deletion succeeds, but for a
      save that must be queued and finds the queue over its limit or the laptop full. */
  ghost predicate Step(now: Moment, call: Call, answer: Answer, exchange: Option<Exchange>, next: Moment) {
    var before, after := now.view, next.view;
    && (if call.Weather? then next.calm == call.calm && next.roomy == call.roomy
        else next.calm == now.calm && next.roomy == now.roomy)
    && (exchange.Some? ==> call.Refresh? && Exchanged(before, exchange.value, after))
    && match call
       case Save(p, data) =>
         && answer.ToSave? && SameBut(before, after, p) && (answer.save.Stored? ==> after == Put(before, p, data))
         && SaveAnswer(now, p, data, answer.save)
       case Remove(p) =>
         && answer.ToRemove? && SameBut(before, after, p) && (answer.remove.Removed? ==> after == before - {p})
         && (now.calm ==> answer.remove == Removed(now.state != Online))
       case Read(p) =>
         && answer.ToRead? && after == before
         && (answer.read.Found? && p !in RESERVED ==> p in before && before[p] == answer.read.data)
         && (answer.read == NotFound && now.state == Online ==> p !in before)
         && (answer.read == ReadFailed ==> !now.calm)
       case _ => exchange.None? ==> after == before
  }

  /** A refusal is exactly for want of space, in the queue or on the laptop. */
  ghost predicate SaveAnswer(now: Moment, p: Path, data: Bytes, end: SaveEnd) {
    var fits := Size(now.rows[p := Row(Digest(data), |data|)]) <= now.limit;
    && (end == QueueFull(true) ==> !fits)
    && (end == QueueFull(false) ==> fits && !now.roomy)
    && (end == Stored(true) ==> fits && now.roomy)
    && (end == Stored(false) ==> now.state == Online)
    && (now.calm ==> end.Stored? || (end.QueueFull? && now.state != Online))
  }

  ghost predicate Exchanged(before: Files, x: Exchange, after: Files) {
    before == Over(x.queued, x.deleted, x.left) && after == Over(x.queued, x.deleted, x.taken)
  }

  /** An unsuccessful save that may have damaged the queued object of its path. */
  predicate MayDamage(answer: Answer) {
    answer.ToSave? && answer.save in {LocalWriteFailed, SaveCutOff}
  }

  /** The call writes or deletes under this name. */
  predicate Names(call: Call, p: Path) {
    (call.Save? || call.Remove?) && call.path == p
  }

  /** A refresh keeps the map, or exchanges the drive under the queue: for the first drive ever, under a
      map that was the queue alone, or for another drive that carries the bound identity. */
  method PerformRefresh(m: StorageManager, found: Discovery, sync: bool, newId: Id) returns (ghost x: Option<Exchange>)
    requires m.Valid() && m.Sound()
    modifies m
    ensures m.Valid() && m.Sound() && (old(m.binding).Some? ==> m.binding == old(m.binding))
    ensures x.Some? <==> m.home != old(m.home)
    ensures x.None? ==> m.View() == old(m.View())
    ensures x.Some? ==>
      && Exchanged(old(m.View()), x.value, m.View()) && x.value.left == old(m.External())
      && found.Candidate? && found.drive in old(m.drives) && x.value.taken == old(m.drives)[found.drive]
      && (old(m.binding).Some? ==> m.IdOf(x.value.taken) == m.binding)
    ensures old(m.Guarded()) ==> m.Guarded() && (old(m.binding).Some? ==> m.AllKept(m.binding, old(m.drives), m.drives))
    ensures m.calm == old(m.calm) && m.roomy == old(m.roomy)
    ensures m.calm && sync && found.Candidate? && old(m.Usable(found.drive)) ==> m.state == Online
  {
    hide ViewOf, Intact, Size, Over;
    ghost var ext, rows, tombs, objects := m.External(), m.rows, m.tombs, m.objects;
    m.RefreshOnce(found, sync, newId);
    x := None;
    if m.home != old(m.home) {
      ghost var taken := old(m.drives)[found.drive];
      QueueOverDrive(ext, rows, tombs, objects);
      QueueOverDrive(taken, rows, tombs, objects);
      x := Some(Exchange(ViewOf(map[], rows, tombs, objects), tombs, ext, taken));
    }
  }

  method PerformSave(m: StorageManager, p: Path, data: Bytes) returns (answer: Answer)
    requires m.Valid() && m.Sound()
    modifies m
    ensures m.Valid() && (m.Sound() || MayDamage(answer)) && m.binding == old(m.binding)
    ensures Step(old(Now(m)), Save(p, data), answer, None, Now(m))
    ensures old(m.Guarded()) && p != IDENTITY ==> m.Guarded() && m.AllKept(m.binding, old(m.drives), m.drives)
  {
    hide ViewOf, SameBut, SameAt, Put, Intact, Size, Exchanged, SaveAnswer, StorageManager.Fits, StorageManager.IdOf;
    ghost var drives, root, now := m.drives, m.root, Now(m);
    var end := m.SaveBytes(p, data);
    answer := ToSave(end);
    SaveAnswered(m, now, p, data, end);
    if old(m.Guarded()) && p != IDENTITY {
      m.OnlyRootChanged(m.binding, drives, m.drives, root);
    }
  }

  lemma SaveAnswered(m: StorageManager, now: Moment, p: Path, data: Bytes, end: SaveEnd)
    requires now.limit == m.queueLimit
    requires end.QueueFull? ==>
      if m.Fits(now.rows, p, data) then !end.overLimit && !now.roomy else end.overLimit
    requires end == Stored(true) ==> m.Fits(now.rows, p, data) && now.roomy
    requires end == Stored(false) ==> now.state == Online
    requires now.calm ==> end.Stored? || (end.QueueFull? && now.state != Online)
    ensures SaveAnswer(now, p, data, end)
  {
  }

  method PerformRemove(m: StorageManager, p: Path) returns (answer: Answer)
    requires m.Valid() && m.Sound()
    modifies m
    ensures m.Valid() && m.Sound() && m.binding == old(m.binding)
    ensures Step(old(Now(m)), Remove(p), answer, None, Now(m))
    ensures old(m.Guarded()) && p != IDENTITY ==> m.Guarded() && m.AllKept(m.binding, old(m.drives), m.drives)
  {
    hide ViewOf, SameBut, SameAt, Put, Intact, Size, Exchanged, SaveAnswer;
    ghost var drives, root := m.drives, m.root;
    var end := m.Delete(p);
    answer := ToRemove(end);
    if old(m.Guarded()) && p != IDENTITY {
      m.OnlyRootChanged(m.binding, drives, m.drives, root);
    }
  }

  method PerformSync(m: StorageManager) returns (answer: Answer)
    requires m.Valid() && m.Sound()
    modifies m
    ensures m.Valid() && m.Sound() && m.binding == old(m.binding)
    ensures Step(old(Now(m)), Synchronise, answer, None, Now(m))
    ensures old(m.Guarded()) ==> m.Guarded() && m.AllKept(m.binding, old(m.drives), m.drives)
  {
    hide ViewOf, SameBut, SameAt, Put, Intact, Size, Exchanged, SaveAnswer;
    ghost var drives, root := m.drives, m.root;
    var _ := m.SyncPending();
    answer := Nothing;
    if old(m.Guarded()) {
      m.OnlyRootChanged(m.binding, drives, m.drives, root);
    }
  }

  method Perform(m: StorageManager, call: Call) returns (answer: Answer, ghost x: Option<Exchange>)
    requires m.Valid() && m.Sound()
    modifies m
    ensures m.Valid() && (m.Sound() || MayDamage(answer)) && (old(m.binding).Some? ==> m.binding == old(m.binding))
    ensures Step(old(Now(m)), call, answer, x, Now(m))
    ensures call.Refresh? && m.calm && call.sync && call.found.Candidate? && old(m.Usable(call.found.drive)) ==>
      m.state == Online
    ensures old(m.Guarded()) && !Names(call, IDENTITY) ==>
      m.Guarded() && (old(m.binding).Some? ==> m.AllKept(m.binding, old(m.drives), m.drives))
  {
    hide ViewOf, SameBut, SameAt, Put, Intact, Size, Exchanged, SaveAnswer;
    answer, x := Nothing, None;
    m.OneChanged(m.binding, m.drives, m.drives, None);
    match call {
      case Save(p, data) => answer := PerformSave(m, p, data);
      case Remove(p) => answer := PerformRemove(m, p);
      case Read(p) =>
        var end := m.ReadBytes(p);
        answer := ToRead(end);
      case Refresh(found, sync, newId) => x := PerformRefresh(m, found, sync, newId);
      case Synchronise => answer := PerformSync(m);
      case RestartProgram => m.Restart();
      case PlugIn(drive, files) => PlugInDrive(m, drive, files);
      case Weather(calm, roomy) => m.Weather(calm, roomy);
    }
  }

  method PlugInDrive(m: StorageManager, drive: Drive, files: Files)
    requires m.Valid()
    modifies m
    ensures m.Valid() && (old(m.Sound()) ==> m.Sound()) && m.binding == old(m.binding)
    ensures Now(m) == old(Now(m))
    ensures m.AllKept(m.binding, old(m.drives), m.drives) && (old(m.Guarded()) ==> m.Guarded())
  {
    hide ViewOf, SameBut, SameAt, Intact, Size;
    ghost var drives := m.drives;
    m.PlugIn(drive, files);
    m.OneChanged(m.binding, drives, m.drives, None);
  }

  /** Every sequence of calls on a sound storage works on one map: each save that is stored puts,
      each deletion removes, reads answer from it, and nothing else changes it but a refresh that takes
      another drive into use. It stops only where the storage is no longer sound, after a save that
      failed on the laptop's own disk. And as long as nobody writes under the name of the identity file,
      the drive in use carries the bound identity, every drive keeps its own, and no drive with another
      one is written to. */
  method Run(m: StorageManager, calls: seq<Call>)
    returns (answers: seq<Answer>, ghost exchanges: seq<Option<Exchange>>, ghost moments: seq<Moment>)
    requires m.Valid() && m.Sound()
    modifies m
    ensures |exchanges| == |answers| <= |calls| && |moments| == |answers| + 1
    ensures moments[0] == old(Now(m)) && moments[|answers|] == Now(m)
    ensures forall i | 0 <= i < |answers| :: Step(moments[i], calls[i], answers[i], exchanges[i], moments[i + 1])
    ensures |answers| < |calls| ==> answers != [] && MayDamage(answers[|answers| - 1]) && !m.Sound()
    ensures m.Valid() && (old(m.binding).Some? ==> m.binding == old(m.binding))
    ensures old(m.Guarded()) && (forall c | c in calls :: !Names(c, IDENTITY)) ==>
      m.Guarded() && (old(m.binding).Some? ==> m.AllKept(m.binding, old(m.drives), m.drives))
  {
    hide Step, ViewOf, Intact, Size, SameAt;
    answers, exchanges, moments := [], [], [Now(m)];
    m.OneChanged(m.binding, m.drives, m.drives, None);
    while |answers| < |calls|
      invariant |exchanges| == |answers| <= |calls| && |moments| == |answers| + 1
      invariant moments[0] == old(Now(m)) && moments[|answers|] == Now(m)
      invariant forall i | 0 <= i < |answers| ::
        Step(moments[i], calls[i], answers[i], exchanges[i], moments[i + 1])
      invariant m.Valid() && m.Sound() && (old(m.binding).Some? ==> m.binding == old(m.binding))
      invariant old(m.Guarded()) && (forall c | c in calls :: !Names(c, IDENTITY)) ==>
        m.Guarded() && (old(m.binding).Some? ==> m.AllKept(m.binding, old(m.drives), m.drives))
      decreases |calls| - |answers|
    {
      ghost var drives := m.drives;
      var call := calls[|answers|];
      ghost var x;
      var answer: Answer;
      answer, x := Perform(m, call);
      if m.AllKept(m.binding, old(m.drives), drives) && m.AllKept(m.binding, drives, m.drives) {
        m.KeptTwice(m.binding, old(m.drives), drives, m.drives);
      }
      answers, exchanges, moments := answers + [answer], exchanges + [x], moments + [Now(m)];
      if !m.Sound() {
        return;
      }
    }
  }

  /** Which saves a reconnection keeps, among all paths the program takes: every one but those under the
      name of the probe, which the connection erases, and those that write another identity than the
      bound one over the identity file, after which the drive is refused. So the storage is one map
      exactly on the other paths. */
  method SaveThenReconnect(m: StorageManager, p: Path, data: Bytes, newId: Id) returns (end: SaveEnd, read: ReadEnd)
    requires m.Valid() && m.Sound() && m.state == Online
    modifies m
    ensures end == Stored(false) ==> m.Valid() && m.binding == old(m.binding)
    ensures end == Stored(false) && p == PROBE ==> read == NotFound
    ensures end == Stored(false) && p == IDENTITY && m.identities.decode(data) != m.binding ==>
      m.state == Error && m.root == None && read == NotFound
    ensures end == Stored(false) && m.state == Online ==>
      (read in {Found(data), ReadFailed} <==> p != PROBE)
      && (p == IDENTITY ==> m.identities.decode(data) == m.binding)
  {
    hide ViewOf, Intact, Size, SameBut, Look;
    read := NotFound;
    var c := m.root.value;
    end := m.SaveBytes(p, data);
    if end != Stored(false) {
      return;
    }
    assert m.rows == map[] && m.tombs == {};
    ghost var drives := m.drives;
    assert m.External() == drives[c];
    m.Restart();
    m.RefreshOnce(Candidate(c), true, newId);
    ViewFromLook(m.External(), map[], {}, m.objects, p);
    LookAtDrive(m.External(), m.objects, p);
    if p == IDENTITY {
      assert m.Kept(m.binding, drives[c], m.drives[c]);
    }
    read := m.ReadBytes(p);
  }

  lemma LookAtDrive(ext: Files, objects: Files, p: Path)
    ensures Look(ext, map[], {}, objects, p) == if p in ext then Some(ext[p]) else None
  {
  }
}
