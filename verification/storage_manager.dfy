/** The storage manager of ron/storage/manager.py: saves, reads and deletions that go to a bound
    external drive or wait in a local queue, and the synchronisation that replays the queue.

    Every effect on a disk may fail, and a synchronisation may be cut off between any two of its
    effects. The queue and the tombstones are replayed in an arbitrary order.
 */
module StorageManagement {
  import opened Common
  import opened StorageView

  type Drive = nat
  type Id = nat

  /** How an identity file is written and read. */
  datatype IdentityCodec = IdentityCodec(encode: Id -> Bytes, decode: Bytes -> Option<Id>)

  ghost predicate Faithful(c: IdentityCodec) {
    forall id: Id :: c.decode(c.encode(id)) == Some(id)
  }

  datatype State = Online | Degraded | Recovering | Error

  datatype SaveEnd = Stored(queued: bool) | QueueFull(overLimit: bool) | LocalWriteFailed | SaveCutOff
  datatype DeleteEnd = Removed(queued: bool) | LocalUnlinkFailed | DatabaseFailed | DeleteCutOff
  datatype ReadEnd = Found(data: Bytes) | NotFound | ReadFailed
  datatype End = Done | Raised | CutOff
  datatype LocalWrite = Written | WriteRaised | Mismatch | Unchecked
  datatype Discovery = DiscoveryFailed | NoDrive | Candidate(drive: Drive)

  class StorageManager {
    const identities: IdentityCodec
    const queueLimit: nat
    // on the laptop's disk
    var binding: Option<Id>
    var rows: map<Path, Row>
    var tombs: set<Path>
    var objects: Files
    // for now, no effect on a disk fails, no drive is short of space and the process is not cut off
    var calm: bool
    // for now, the laptop's disk has space
    var roomy: bool
    // every external drive there is
    var drives: map<Drive, Files>
    // in memory
    var state: State
    var root: Option<Drive>
    /** The drive last verified against the binding; another one may carry the same identity. */
    ghost var home: Option<Drive>

    /** A manager on a laptop that has never seen a drive. */
    constructor (identities: IdentityCodec, queueLimit: nat, drives: map<Drive, Files>)
      requires Faithful(identities)
      ensures Valid() && Sound() && binding == None && View() == map[] && this.drives == drives
      ensures this.identities == identities && state == Degraded
    {
      this.identities, this.queueLimit, this.drives := identities, queueLimit, drives;
      binding, rows, tombs, objects, home := None, map[], {}, map[], None;
      state, root := Degraded, None;
      calm, roomy := false, false;
    }

    /** The world around the manager changes. */
    method Weather(calm: bool, roomy: bool)
      requires Valid()
      modifies this`calm, this`roomy
      ensures Valid() && View() == old(View()) && this.calm == calm && this.roomy == roomy
    {
      this.calm, this.roomy := calm, roomy;
    }

    /** Whether the next effect fails. */
    method Fails() returns (failed: bool)
      ensures calm ==> !failed
    {
      failed := *;
      failed := failed && !calm;
    }

    /** What a write leaves behind. */
    method Arrives(data: Bytes) returns (written: Bytes)
      ensures calm ==> written == data
    {
      written := *;
      if calm {
        written := data;
      }
    }

    function IdOf(files: Files): Option<Id>
    {
      if IDENTITY in files then identities.decode(files[IDENTITY]) else None
    }

    ghost predicate Valid()
      reads this
    {
      && Faithful(identities)
      && (home.Some? <==> binding.Some?)
      && (home.Some? ==> home.value in drives)
      && (root.Some? ==> root == home)
      && (state == Online ==> root.Some?)
      && rows.Keys !! tombs
      && Size(rows) <= queueLimit
    }

    /** The queue's objects are intact, and nothing is pending while the manager is online. */
    predicate Sound()
      reads this
    {
      Intact(rows, objects) && (state == Online ==> rows == map[] && tombs == {})
    }

    /** The drive in use carries the bound identity. */
    ghost predicate Bound()
      reads this
    {
      root.Some? ==> binding.Some? && IdOf(External()) == binding
    }

    /** The drive in use carries the bound identity, and nothing is queued that would change that. */
    ghost predicate Guarded()
      reads this
    {
      Bound() && IDENTITY !in rows && IDENTITY !in tombs
    }

    /** A drive has kept its identity, and everything if that is not the bound one. */
    predicate Kept(bound: Option<Id>, before: Files, after: Files) {
      SameAt(before, after, IDENTITY) && (IdOf(before) != bound ==> after == before)
    }

    predicate AllKept(bound: Option<Id>, before: map<Drive, Files>, after: map<Drive, Files>) {
      forall d | d in before :: d in after && Kept(bound, before[d], after[d])
    }

    ghost function External(): Files
      reads this
    {
      if home.Some? && home.value in drives then drives[home.value] else map[]
    }

    /** The one map the storage stands for. */
    ghost function View(): Files
      reads this
    {
      ViewOf(External(), rows, tombs, objects)
    }

    // ---- single effects

    /** Write a file of a drive and read it back. */
    method WriteFile(d: Drive, p: Path, data: Bytes) returns (ok: bool)
      requires d in drives
      modifies this`drives
      ensures drives.Keys == old(drives.Keys) && forall e | e in drives && e != d :: drives[e] == old(drives)[e]
      ensures SameBut(old(drives[d]), drives[d], p) && (p != IDENTITY ==> SameAt(old(drives[d]), drives[d], IDENTITY))
      ensures p != PROBE ==> SameAt(old(drives[d]), drives[d], PROBE)
      ensures (ok ==> drives[d] == old(drives[d])[p := data]) && (calm ==> ok)
    {
      var raised := Fails();
      if raised {
        var left: Option<Bytes> := *;
        drives := drives[d := if left.Some? then drives[d][p := left.value] else drives[d] - {p}];
        return false;
      }
      var written := Arrives(data);
      drives := drives[d := drives[d][p := written]];
      return Digest(written) == Digest(data);
    }

    method UnlinkFile(d: Drive, p: Path) returns (ok: bool)
      requires d in drives
      modifies this`drives
      ensures drives.Keys == old(drives.Keys) && forall e | e in drives && e != d :: drives[e] == old(drives)[e]
      ensures SameBut(old(drives[d]), drives[d], p) && (p != IDENTITY ==> SameAt(old(drives[d]), drives[d], IDENTITY))
      ensures drives[d] == old(drives[d]) || drives[d] == old(drives[d]) - {p}
      ensures (ok ==> drives[d] == old(drives[d]) - {p}) && (calm ==> ok)
    {
      var stays := Fails();
      if !stays {
        drives := drives[d := drives[d] - {p}];
      }
      var raised := Fails();
      if raised || p in drives[d] {
        return false;
      }
      assert drives[d] == old(drives[d]) - {p};
      return true;
    }

    /** Write an object file and check it; a mismatch is removed. When reading it back or removing it
        fails, whatever was written stays. */
    method WriteObject(p: Path, data: Bytes) returns (end: LocalWrite)
      modifies this`objects
      ensures match end
              case Written => objects == old(objects)[p := data]
              case WriteRaised => objects == old(objects)
              case Mismatch => objects == old(objects) - {p}
              case Unchecked => p in objects && objects - {p} == old(objects) - {p}
      ensures calm ==> end == Written
    {
      var raised := Fails();
      if raised {
        return WriteRaised;
      }
      var written := Arrives(data);
      objects := objects[p := written];
      var unreadable := Fails();
      var stays := Fails();
      if unreadable || (Digest(written) != Digest(data) && stays) {
        return Unchecked;
      }
      if Digest(written) != Digest(data) {
        objects := objects - {p};
        return Mismatch;
      }
      return Written;
    }

    method UnlinkObject(p: Path) returns (ok: bool)
      modifies this`objects
      ensures objects == (if ok then old(objects) - {p} else old(objects)) && (calm ==> ok)
    {
      var stays := Fails();
      ok := !stays;
      if ok {
        objects := objects - {p};
      }
    }

    /** The process ends; what it knew of the drive is gone. */
    method Restart()
      requires Valid()
      modifies this`state, this`root
      ensures Valid() && (old(Sound()) ==> Sound()) && state == Degraded && root == None && View() == old(View())
    {
      state, root := Degraded, None;
    }

    // ---- saves

    /** With this row in place of the path's old one, the queue is within its limit. */
    ghost predicate Fits(rows: map<Path, Row>, p: Path, data: Bytes) {
      Size(rows[p := Row(Digest(data), |data|)]) <= queueLimit
    }

    /** `save_bytes`. A stored save is seen by everything after it; whatever becomes of it, no other
        path changes; and the storage stays sound unless the queued object of this very path was
        damaged on the way. */
    method SaveBytes(p: Path, data: Bytes) returns (end: SaveEnd)
      requires Valid()
      modifies this`rows, this`tombs, this`objects, this`drives, this`state, this`root
      ensures Valid() && SameBut(old(View()), View(), p)
      ensures old(Sound()) && end.Stored? ==> View() == Put(old(View()), p, data)
      ensures end == Stored(true) ==> View() == Put(old(View()), p, data)
      ensures end == Stored(false) ==> old(state) == Online && External() == old(External())[p := data]
      ensures end == Stored(false) ==> state == Online && root == old(root) && rows == old(rows)
      ensures old(Sound()) ==> (Sound() <==> end.Stored? || p !in old(rows) || objects == old(objects))
      ensures end.QueueFull? ==> objects == old(objects)
      ensures end.QueueFull? ==>
        if Fits(old(rows), p, data) then !end.overLimit && !roomy else end.overLimit
      ensures end == Stored(true) ==> Fits(old(rows), p, data) && roomy
      ensures calm ==>
        end == if old(state) == Online then Stored(false)
               else if Fits(old(rows), p, data) then if roomy then Stored(true) else QueueFull(false)
               else QueueFull(true)
      ensures old(state) != Online && end.QueueFull? ==>
        View() == old(ViewOf(External(), rows, tombs - {p}, objects))
      ensures root == None || root == old(root)
      ensures rows.Keys <= old(rows.Keys) + {p} && tombs <= old(tombs)
      ensures p != IDENTITY ==> SameAt(old(External()), External(), IDENTITY)
      ensures drives.Keys == old(drives.Keys)
      ensures forall d | d in drives && Some(d) != old(root) :: drives[d] == old(drives)[d]
    {
      hide ViewOf, Look, SameBut, SameAt, Size, Fits, Intact, IdOf, Put;
      ghost var ext, tombs0, rows0, objects0 := External(), tombs, rows, objects;
      SameButSelf(ext, p);
      SameButSelf(objects, p);
      SameAtSelf(ext, IDENTITY);
      var refused := Fails();
      if refused {
        SameButSelf(View(), p);
        return LocalWriteFailed;
      }
      tombs := tombs - {p};
      if state == Online {
        var ok := WriteFile(root.value, p, data);
        if ok {
          SavedOnDrive(ext, rows, tombs0, objects, p, data);
          return Stored(false);
        }
        state, root := Degraded, None;
      }
      end := FallBack(p, data, ext, tombs0);
    }

    /** The rest of `save_bytes` when the drive is not there, or was lost over the path's file. */
    method FallBack(p: Path, data: Bytes, ghost ext: Files, ghost tombs0: set<Path>) returns (end: SaveEnd)
      requires Valid() && state != Online && tombs == tombs0 - {p} && SameBut(ext, External(), p)
      modifies this`rows, this`objects, this`state, this`root
      ensures Valid() && state != Online && !(end == Stored(false))
      ensures SameBut(ViewOf(ext, old(rows), tombs0, old(objects)), View(), p)
      ensures end.Stored? ==> View() == Put(ViewOf(ext, old(rows), tombs0, old(objects)), p, data)
      ensures old(Intact(rows, objects)) ==>
        (Intact(rows, objects) <==> end.Stored? || p !in old(rows) || objects == old(objects))
      ensures end.QueueFull? <==> !Fits(old(rows), p, data) || !roomy
      ensures end.QueueFull? ==> (end.overLimit <==> !Fits(old(rows), p, data))
      ensures end.QueueFull? ==> objects == old(objects) && rows == old(rows)
      ensures calm && !end.QueueFull? ==> end == Stored(true)
      ensures (root == None || root == old(root)) && rows.Keys <= old(rows.Keys) + {p}
    {
      hide ViewOf, Look, SameBut, SameAt, Size, Fits, Intact, IdOf, Put;
      ghost var rows0, objects0 := rows, objects;
      end := QueueBytes(p, data);
      if end.Stored? {
        WriteToQueue(ext, External(), rows0, tombs0, objects0, p, data, Row(Digest(data), |data|));
      }
      SameButMeans(objects0, objects, p);
      ElsewhereUnchanged(ext, External(), rows0, rows, tombs0, tombs, objects0, objects, p);
      SoundAfterSave(rows0, objects0, objects, p, data);
    }

    method QueueBytes(p: Path, data: Bytes) returns (end: SaveEnd)
      requires Valid() && state != Online && p !in tombs
      modifies this`rows, this`objects, this`state, this`root
      ensures Valid() && state != Online
      ensures old(objects) - {p} == objects - {p} && old(rows) - {p} == rows - {p}
      ensures (root == None || root == old(root)) && rows.Keys <= old(rows.Keys) + {p}
      ensures end.QueueFull? <==> !Fits(old(rows), p, data) || !roomy
      ensures end.QueueFull? ==> (end.overLimit <==> !Fits(old(rows), p, data))
      ensures calm && !end.QueueFull? ==> end == Stored(true)
      ensures match end
        case Stored(queued) => queued && objects == old(objects)[p := data]
          && rows == old(rows)[p := Row(Digest(data), |data|)]
        case QueueFull(_) => objects == old(objects) && rows == old(rows)
        case LocalWriteFailed => rows == old(rows)
        case SaveCutOff => objects == old(objects)[p := data] && rows == old(rows)
    {
      hide Size, IdOf, ViewOf;
      var existing := if p in rows then rows[p].size else 0;
      ghost var row := Row(Digest(data), |data|);
      SizeOfUpdate(rows, p, row);
      var pendingBytes := PendingBytes();
      if pendingBytes - existing + |data| > queueLimit {
        return QueueFull(true);
      }
      if !roomy {
        return QueueFull(false);
      }
      var written := WriteObject(p, data);
      if written != Written {
        return LocalWriteFailed;
      }
      var cutOff := Fails();
      var refused := Fails();
      if cutOff {
        state, root := Degraded, None;
        return SaveCutOff;
      }
      if refused {
        return LocalWriteFailed;
      }
      rows := rows[p := Row(Digest(data), |data|)];
      return Stored(true);
    }

    /** The byte count of `pending_stats`. */
    method PendingBytes() returns (bytes: nat)
      ensures bytes == Size(rows)
    {
      bytes := 0;
      var left := rows;
      while left != map[]
        invariant bytes + Size(left) == Size(rows)
        decreases |left|
      {
        var p :| p in left;
        SizeWithout(left, p);
        bytes := bytes + left[p].size;
        left := left - {p};
      }
    }

    // ---- deletions and reads

    /** `delete`. A removed path is gone from the map, whether the drive was reached or not. */
    method Delete(p: Path) returns (end: DeleteEnd)
      requires Valid()
      modifies this`rows, this`tombs, this`objects, this`drives, this`state, this`root
      ensures Valid() && SameBut(old(View()), View(), p) && (old(Sound()) ==> Sound())
      ensures end.Removed? ==> View() == old(View()) - {p}
      ensures end.Removed? ==> (end.queued <==> p in tombs) && (!end.queued ==> p !in External())
      ensures calm ==> end == Removed(old(state) != Online)
      ensures end in {LocalUnlinkFailed, DeleteCutOff} ==> p in old(rows) && p !in rows && External() == old(External())
      ensures !end.Removed? ==> tombs == old(tombs)
      ensures root == None || root == old(root)
      ensures rows == old(rows) - {p} || (end == DatabaseFailed && rows == old(rows) && View() == old(View()))
      ensures tombs <= old(tombs) + {p}
      ensures p != IDENTITY ==> SameAt(old(External()), External(), IDENTITY)
      ensures drives.Keys == old(drives.Keys)
      ensures forall d | d in drives && Some(d) != old(root) :: drives[d] == old(drives)[d]
    {
      hide ViewOf, Look, SameBut, SameAt, Intact, Size, IdOf;
      ghost var ext, tombs0, rows0, objects0 := External(), tombs, rows, objects;
      SameButSelf(ext, p);
      SameAtSelf(ext, IDENTITY);
      var refused := Fails();
      if refused {
        SameButSelf(View(), p);
        return DatabaseFailed;
      }
      var removed := RemoveQueuedWrite(p);
      SameButMeans(objects0, objects, p);
      if removed != Done {
        ElsewhereUnchanged(ext, ext, rows0, rows, tombs0, tombs, objects0, objects, p);
        return if removed == CutOff then DeleteCutOff else LocalUnlinkFailed;
      }
      var queued := DeleteFromDrive(p);
      if queued.None? {
        ElsewhereUnchanged(ext, External(), rows0, rows, tombs0, tombs, objects0, objects, p);
        return DatabaseFailed;
      }
      DeletedAt(ext, External(), rows0, tombs0, tombs, objects0, objects, p);
      return Removed(queued.value);
    }

    /** The drive's half of `delete`: the file goes now, or a tombstone says that it will. None if the
        queue's database fails, and the tombstones stay what they were. */
    method DeleteFromDrive(p: Path) returns (queued: Option<bool>)
      requires Valid() && p !in rows
      modifies this`tombs, this`drives, this`state, this`root
      ensures Valid() && (old(Sound()) ==> Sound())
      ensures calm ==> queued == Some(old(state) != Online)
      ensures match queued
              case None => tombs == old(tombs)
              case Some(later) => tombs == if later then old(tombs) + {p} else old(tombs) - {p}
      ensures SameBut(old(External()), External(), p) && (queued == Some(false) ==> p !in External())
      ensures root == None || root == old(root)
      ensures p != IDENTITY ==> SameAt(old(External()), External(), IDENTITY)
      ensures drives.Keys == old(drives.Keys)
      ensures forall d | d in drives && Some(d) != old(root) :: drives[d] == old(drives)[d]
    {
      hide SameBut, SameAt, Intact, Size, IdOf;
      SameButSelf(External(), p);
      SameAtSelf(External(), IDENTITY);
      var refused := Fails();
      if state == Online {
        var ok := UnlinkFile(root.value, p);
        if ok {
          if refused {
            return None;
          }
          tombs := tombs - {p};
          return Some(false);
        }
        state, root := Degraded, None;
      }
      if refused {
        return None;
      }
      tombs := tombs + {p};
      return Some(true);
    }

    /** `_remove_queued_write`. */
    method RemoveQueuedWrite(p: Path) returns (end: End)
      requires Valid()
      modifies this`rows, this`objects, this`state, this`root
      ensures Valid() && (old(Sound()) ==> Sound())
      ensures rows == old(rows) - {p} && objects - {p} == old(objects) - {p}
      ensures (end != Done ==> p in old(rows)) && (calm ==> end == Done)
      ensures root == None || root == old(root)
      ensures end != CutOff ==> state == old(state) && root == old(root)
    {
      hide Intact, Size, IdOf;
      if p !in rows {
        return Done;
      }
      SizeWithout(rows, p);
      RemovalKeepsIntact(rows, objects, p);
      rows := rows - {p};
      var cutOff := Fails();
      if cutOff {
        state, root := Degraded, None;
        return CutOff;
      }
      var unlinked := UnlinkObject(p);
      return if unlinked then Done else Raised;
    }

    /** `read_bytes`. A read that answers gives what the map holds, or what stands at a reserved path;
        while the drive is there it answers for every path of the map, unless the disk fails. */
    method ReadBytes(p: Path) returns (end: ReadEnd)
      requires Valid()
      ensures end.Found? ==> Look(External(), rows, tombs, objects, p) == Some(end.data)
      ensures end == NotFound ==> Look(External(), rows, tombs, objects, p) == None || state != Online
      ensures p !in RESERVED && end.Found? ==> p in View() && View()[p] == end.data
      ensures end == NotFound ==> p !in View() || state != Online
      ensures end != NotFound ==> (p in rows && p in objects) || (state == Online && p in External())
      ensures calm && state == Online ==>
        end == match Look(External(), rows, tombs, objects, p)
               case None => NotFound
               case Some(data) => Found(data)
      ensures calm && state != Online ==>
        end == if p in rows && p in objects && p !in tombs then Found(objects[p]) else NotFound
    {
      hide ViewOf;
      ViewFromLook(External(), rows, tombs, objects, p);
      if p in tombs {
        return NotFound;
      }
      var failed := Fails();
      if p in rows && p in objects {
        return if failed then ReadFailed else Found(objects[p]);
      }
      if state != Online || p !in drives[root.value] {
        return NotFound;
      }
      return if failed then ReadFailed else Found(drives[root.value][p]);
    }

    // ---- synchronisation

    /** `_sync_deletions`: wherever it stops, the map is what it was. */
    method SyncDeletions(d: Drive) returns (end: End)
      requires Valid() && root == Some(d)
      modifies this`tombs, this`drives, this`state, this`root
      ensures Valid() && View() == old(View()) && tombs <= old(tombs) && (end == Done ==> tombs == {})
      ensures end != CutOff ==> state == old(state) && root == old(root)
      ensures end == CutOff ==> state == Degraded && root == None
      ensures calm ==> end == Done
      ensures IDENTITY !in old(tombs) ==> SameAt(old(External()), External(), IDENTITY)
      ensures PROBE !in old(External()) ==> PROBE !in External()
      ensures drives.Keys == old(drives.Keys) && forall e | e in drives && e != d :: drives[e] == old(drives)[e]
    {
      hide ViewOf, SameBut, Size, IdOf;
      while tombs != {}
        invariant Valid() && View() == old(View()) && tombs <= old(tombs)
        invariant state == old(state) && root == old(root)
        invariant IDENTITY !in old(tombs) ==> SameAt(old(External()), External(), IDENTITY)
        invariant PROBE !in old(External()) ==> PROBE !in External()
        invariant drives.Keys == old(drives.Keys) && forall e | e in drives && e != d :: drives[e] == old(drives)[e]
        decreases tombs
      {
        var p :| p in tombs;
        end := ReplayDeletion(d, p);
        if end != Done {
          return;
        }
      }
      return Done;
    }

    /** One tombstone: unlink the file on the drive, then forget the tombstone. */
    method ReplayDeletion(d: Drive, p: Path) returns (end: End)
      requires Valid() && root == Some(d) && p in tombs
      modifies this`tombs, this`drives, this`state, this`root
      ensures Valid() && View() == old(View())
      ensures tombs == old(tombs) || tombs == old(tombs) - {p}
      ensures end == Done ==> p !in tombs
      ensures end != CutOff ==> state == old(state) && root == old(root)
      ensures end == CutOff ==> state == Degraded && root == None
      ensures calm ==> end == Done
      ensures p != IDENTITY ==> SameAt(old(External()), External(), IDENTITY)
      ensures PROBE !in old(External()) ==> PROBE !in External()
      ensures drives.Keys == old(drives.Keys) && forall e | e in drives && e != d :: drives[e] == old(drives)[e]
    {
      hide ViewOf, SameBut, SameAt, Size, IdOf;
      ghost var ext := External();
      var ok := UnlinkFile(d, p);
      HiddenChange(ext, External(), rows, tombs, objects, p);
      var refused := Fails();
      if !ok || refused {
        return Raised;
      }
      var cutOff := Fails();
      if !cutOff {
        SettleDeletion(External(), rows, tombs, objects, p);
        tombs := tombs - {p};
        cutOff := Fails();
      }
      if cutOff {
        state, root := Degraded, None;
        return CutOff;
      }
      return Done;
    }

    /** The rest of `_sync_pending_locked`: wherever it stops, the map is what it was; when it is
        done, exactly the damaged rows are left. */
    method SyncWrites(d: Drive) returns (end: End)
      requires Valid() && root == Some(d)
      modifies this`rows, this`objects, this`drives, this`state, this`root
      ensures Valid() && View() == old(View()) && (old(Intact(rows, objects)) ==> Intact(rows, objects))
      ensures forall p | p in rows :: p in old(rows) && rows[p] == old(rows)[p]
      ensures end == Done ==> forall p | p in old(rows) :: p in rows <==> !Replayable(old(rows)[p], old(objects), p)
      ensures end == Done ==> forall p | p in rows :: !Replayable(rows[p], objects, p)
      ensures end != CutOff ==> state == old(state) && root == old(root)
      ensures end == CutOff ==> state == Degraded && root == None
      ensures calm ==> end == Done
      ensures IDENTITY !in old(rows) ==> SameAt(old(External()), External(), IDENTITY)
      ensures PROBE !in old(rows) ==> SameAt(old(External()), External(), PROBE)
      ensures drives.Keys == old(drives.Keys) && forall e | e in drives && e != d :: drives[e] == old(drives)[e]
    {
      hide ViewOf, SameBut, SameAt, Size, Intact, IdOf, Replayable;
      ghost var rows0, objects0, ext0 := rows, objects, External();
      SameAtSelf(ext0, IDENTITY);
      SameAtSelf(ext0, PROBE);
      var pending := rows.Keys;
      while pending != {}
        invariant Valid() && View() == old(View()) && (Intact(rows0, objects0) ==> Intact(rows, objects))
        invariant pending <= rows.Keys && forall p | p in rows :: p in rows0 && rows[p] == rows0[p]
        invariant forall p | p in rows :: Replayable(rows[p], objects, p) <==> Replayable(rows0[p], objects0, p)
        invariant forall p | p in rows0 && p !in pending :: p in rows <==> !Replayable(rows0[p], objects0, p)
        invariant state == old(state) && root == old(root)
        invariant IDENTITY !in rows0 ==> SameAt(old(External()), External(), IDENTITY)
        invariant PROBE !in rows0 ==> SameAt(old(External()), External(), PROBE)
        invariant drives.Keys == old(drives.Keys) && forall e | e in drives && e != d :: drives[e] == old(drives)[e]
        decreases pending
      {
        var p :| p in pending;
        pending := pending - {p};
        NotReplayable(rows[p], objects, p);
        if p !in objects {
          continue;
        }
        var payload := objects[p];
        if Digest(payload) != rows[p].digest {
          continue;
        }
        ghost var before, ext := objects, External();
        end := ReplayRow(d, p);
        OthersReplayable(rows, before, objects, p);
        SameAtTwice(ext0, ext, External(), IDENTITY);
        SameAtTwice(ext0, ext, External(), PROBE);
        if end != Done {
          return;
        }
      }
      return Done;
    }

    /** One row of the queue: write it to the drive, then take it off the queue. */
    method ReplayRow(d: Drive, p: Path) returns (end: End)
      requires Valid() && root == Some(d) && p in rows && p in objects
      modifies this`rows, this`objects, this`drives, this`state, this`root
      ensures Valid() && View() == old(View()) && (old(Intact(rows, objects)) ==> Intact(rows, objects))
      ensures rows == old(rows) || rows == old(rows) - {p}
      ensures end == Done ==> p !in rows
      ensures objects == old(objects) || (objects - {p} == old(objects) - {p} && p !in rows)
      ensures end != CutOff ==> state == old(state) && root == old(root)
      ensures end == CutOff ==> state == Degraded && root == None
      ensures calm ==> end == Done
      ensures p != IDENTITY ==> SameAt(old(External()), External(), IDENTITY)
      ensures p != PROBE ==> SameAt(old(External()), External(), PROBE)
      ensures drives.Keys == old(drives.Keys) && forall e | e in drives && e != d :: drives[e] == old(drives)[e]
    {
      hide ViewOf, SameBut, SameAt, Size, Intact, IdOf;
      ghost var ext := External();
      var ok := WriteFile(d, p, objects[p]);
      HiddenChange(ext, External(), rows, tombs, objects, p);
      var refused := Fails();
      if !ok || refused {
        return Raised;
      }
      var cutOff := Fails();
      if cutOff {
        state, root := Degraded, None;
        return CutOff;
      }
      end := TakeOffQueue(p);
    }

    /** A row whose payload is on the drive leaves the queue, and then its object file goes. */
    method TakeOffQueue(p: Path) returns (end: End)
      requires Valid() && p in rows && p in objects && p in External() && External()[p] == objects[p]
      modifies this`rows, this`objects, this`state, this`root
      ensures Valid() && View() == old(View()) && (old(Intact(rows, objects)) ==> Intact(rows, objects))
      ensures rows == old(rows) - {p} && objects - {p} == old(objects) - {p}
      ensures end != CutOff ==> state == old(state) && root == old(root)
      ensures end == CutOff ==> state == Degraded && root == None
      ensures calm ==> end == Done
    {
      hide ViewOf, SameBut, Size, Intact, IdOf;
      ghost var objects0 := objects;
      SettleWrite(External(), rows, tombs, objects, p);
      SizeWithout(rows, p);
      RemovalKeepsIntact(rows, objects, p);
      rows := rows - {p};
      var cutOff := Fails();
      if cutOff {
        state, root := Degraded, None;
        return CutOff;
      }
      var unlinked := UnlinkObject(p);
      SameButMeans(objects0, objects, p);
      OrphanChange(External(), rows, tombs, objects0, objects, p);
      return if unlinked then Done else Raised;
    }


    /** `sync_pending`. */
    method SyncPending() returns (end: End)
      requires Valid()
      modifies this`rows, this`tombs, this`objects, this`drives, this`state, this`root
      ensures Valid() && View() == old(View()) && (old(Intact(rows, objects)) ==> Intact(rows, objects))
      ensures old(Sound()) ==> Sound()
      ensures end == Done && old(root).Some? ==>
        tombs == {} && rows.Keys == (set p | p in old(rows) && !Replayable(old(rows)[p], old(objects), p))
      ensures end == Done && old(root).Some? ==> forall p | p in rows :: !Replayable(rows[p], objects, p)
      ensures end != CutOff ==> state == old(state) && root == old(root)
      ensures end == CutOff ==> state == Degraded && root == None
      ensures calm ==> end == Done
      ensures end == Done && old(root).Some? && old(Intact(rows, objects)) ==>
        rows == map[] && tombs == {} && External() - RESERVED == old(View())
      ensures rows.Keys <= old(rows.Keys) && tombs <= old(tombs)
      ensures PROBE !in old(rows) && PROBE !in old(External()) ==> PROBE !in External()
      ensures IDENTITY !in old(rows) && IDENTITY !in old(tombs) ==> SameAt(old(External()), External(), IDENTITY)
      ensures drives.Keys == old(drives.Keys)
      ensures forall d | d in drives && Some(d) != old(root) :: drives[d] == old(drives)[d]
    {
      hide ViewOf, Size, Intact, IdOf, Replayable;
      if root.None? {
        return Done;
      }
      end := SyncDeletions(root.value);
      if end != Done {
        return;
      }
      end := SyncWrites(root.value);
      if end == Done && Intact(rows, objects) {
        NothingReplayable(rows, objects);
        NothingPendingIsTheDrive(External(), objects);
      }
    }

    // ---- the drive

    /** A drive the laptop has not seen before, whatever identity it carries. */
    method PlugIn(d: Drive, files: Files)
      requires Valid()
      modifies this`drives
      ensures Valid() && View() == old(View())
      ensures drives == if d in old(drives) then old(drives) else old(drives)[d := files]
    {
      if d !in drives {
        drives := drives[d := files];
      }
    }

    /** Write a file of a drive whole or fail. */
    method AtomicWrite(d: Drive, p: Path, data: Bytes) returns (ok: bool)
      requires d in drives
      modifies this`drives
      ensures drives.Keys == old(drives.Keys) && forall e | e in drives && e != d :: drives[e] == old(drives)[e]
      ensures SameBut(old(drives[d]), drives[d], p) && (p != IDENTITY ==> SameAt(old(drives[d]), drives[d], IDENTITY))
      ensures (ok ==> drives[d] == old(drives[d])[p := data]) && (calm ==> ok)
    {
      var raised := Fails();
      ok := !raised;
      var left: Option<Bytes> := *;
      drives := drives[d :=
        if ok then drives[d][p := data] else if left.Some? then drives[d][p := left.value] else drives[d] - {p}];
    }

    /** A drive the manager may take into use: one that carries the binding, or, without one, any whose
        identity file is missing or in order. */
    predicate Usable(c: Drive)
      reads this
    {
      c in drives && if binding.Some? then IdOf(drives[c]) == binding
                     else IDENTITY !in drives[c] || IdOf(drives[c]).Some?
    }

    /** `_verify_or_initialise_identity`: None where the program raises. A manager that has a binding
        accepts a drive if it carries it and its identity file can be read, and writes to none. */
    method VerifyIdentity(c: Drive, newId: Id) returns (id: Option<Id>, ghost legible: bool)
      requires Valid()
      modifies this`drives
      ensures Valid() && View() == old(View())
      ensures binding.Some? ==> drives == old(drives)
      ensures binding.Some? ==> (id.Some? <==> c in drives && IdOf(drives[c]) == binding && legible)
      ensures id.Some? ==> c in drives && IdOf(drives[c]) == id && (binding.Some? ==> id == binding)
      ensures calm ==> legible && (id.Some? <==> old(Usable(c)))
      ensures drives.Keys == old(drives.Keys) && forall d | d in drives && d != c :: drives[d] == old(drives)[d]
      ensures c in drives ==> SameBut(old(drives)[c], drives[c], IDENTITY)
    {
      hide ViewOf, SameBut, SameAt, Size;
      var unreadable := Fails();
      legible := !unreadable;
      if c !in drives {
        return None, legible;
      }
      SameButSelf(drives[c], IDENTITY);
      if IDENTITY in drives[c] {
        id := if unreadable then None else IdOf(drives[c]);
        return if id.None? || (binding.Some? && id != binding) then None else id, legible;
      }
      if binding.Some? {
        return None, legible;
      }
      var ok := AtomicWrite(c, IDENTITY, identities.encode(newId));
      return if ok then Some(newId) else None, legible;
    }

    /** `_probe_write_access`: whatever was at the probe's path is gone afterwards. */
    method ProbeWriteAccess(c: Drive) returns (ok: bool)
      requires Valid() && c in drives
      modifies this`drives
      ensures Valid() && View() == old(View())
      ensures drives.Keys == old(drives.Keys) && forall d | d in drives && d != c :: drives[d] == old(drives)[d]
      ensures (ok ==> PROBE !in drives[c]) && (calm ==> ok)
      ensures SameAt(old(drives)[c], drives[c], IDENTITY) && IdOf(drives[c]) == old(IdOf(drives[c]))
      ensures SameBut(old(drives)[c], drives[c], PROBE)
    {
      hide ViewOf, SameBut, Size;
      ghost var ext, drives0 := External(), drives;
      ok := AtomicWrite(c, PROBE, [0x6F, 0x6B]);
      ghost var drives1 := drives;
      if ok {
        ok := UnlinkFile(c, PROBE);
      }
      SameButSelf(drives1[c], PROBE);
      SameButTwice(drives0[c], drives1[c], drives[c], PROBE);
      if home == Some(c) {
        HiddenChange(ext, External(), rows, tombs, objects, PROBE);
      }
    }

    /** `_bind_storage_if_needed`. */
    method BindStorageIfNeeded(c: Drive, id: Id) returns (ok: bool)
      requires Valid() && c in drives && (binding.Some? ==> binding == Some(id))
      modifies this`binding, this`home
      ensures Valid() && (ok ==> binding == Some(id)) && (calm ==> ok)
      ensures !ok || old(binding).Some? ==> binding == old(binding) && home == old(home)
      ensures ok && old(binding).None? ==> home == Some(c)
    {
      if binding.Some? {
        return true;
      }
      var raised := Fails();
      ok := !raised;
      if ok {
        binding, home := Some(id), Some(c);
      }
    }

    /** The checks of `refresh_once`: a candidate is accepted only if it carries the binding, or is the
        first drive ever, which then makes it; a new connection is probed. */
    method Connect(c: Drive, newId: Id) returns (ok: bool)
      requires Valid()
      modifies this`drives, this`binding, this`home
      ensures drives.Keys == old(drives.Keys) && forall d | d in drives && d != c :: drives[d] == old(drives)[d]
      ensures Valid() && (ok ==> c in drives && binding.Some? && IdOf(drives[c]) == binding)
      ensures calm && old(Usable(c)) ==> ok
      ensures old(binding).Some? ==> binding == old(binding) && home == old(home)
      ensures old(binding).None? ==> home == if ok then Some(c) else None
      ensures home == old(home) ==> View() == old(View())
      ensures c in drives ==> ViewOf(old(drives)[c], rows, tombs, objects) == ViewOf(drives[c], rows, tombs, objects)
      ensures old(binding).Some? && !(c in old(drives) && IdOf(old(drives)[c]) == old(binding)) ==>
        !ok && drives == old(drives)
      ensures old(binding).Some? && c in drives ==> SameAt(old(drives)[c], drives[c], IDENTITY)
      ensures ok && !(state == Online && root == Some(c)) ==> PROBE !in drives[c]
    {
      hide ViewOf, SameBut, Size, IdOf, RESERVED;
      ghost var drives0 := drives;
      var tight := Fails();
      if tight {
        return false;
      }
      var id, _ := VerifyIdentity(c, newId);
      if c in drives {
        SameButSelf(drives[c], PROBE);
        ReservedChanges(drives0[c], drives[c], drives[c], rows, tombs, objects);
      }
      if id.None? {
        return false;
      }
      ghost var drives1 := drives;
      if state != Online || root != Some(c) {
        var probed := ProbeWriteAccess(c);
        ReservedChanges(drives0[c], drives1[c], drives[c], rows, tombs, objects);
        if !probed {
          return false;
        }
      }
      ok := BindStorageIfNeeded(c, id.value);
    }

    /** `refresh_once`. The map stays what it was, unless a drive comes into use that was not the last
        one: the first ever, or another that carries the same identity. Then what is queued stays, and the
        rest is what that drive holds. A manager that comes online has nothing left that could be
        replayed. */
    method RefreshOnce(found: Discovery, sync: bool, newId: Id)
      requires Valid()
      modifies this`binding, this`rows, this`tombs, this`objects, this`drives, this`state, this`root, this`home
      ensures Valid() && (old(Intact(rows, objects)) ==> Sound())
      ensures calm && found.Candidate? && old(Usable(found.drive)) ==>
        state == if !sync && (rows != map[] || tombs != {}) then Recovering else Online
      ensures old(binding).Some? ==> binding == old(binding)
      ensures home == old(home) ==> View() == old(View())
      ensures home != old(home) ==>
        && found.Candidate? && home == Some(found.drive) && found.drive in old(drives)
        && (old(binding).Some? ==> IdOf(old(drives)[found.drive]) == binding)
        && View() == ViewOf(old(drives)[found.drive], old(rows), old(tombs), old(objects))
      ensures root.Some? ==> found == Candidate(root.value)
      ensures state == Online ==> root.Some? && tombs == {}
      ensures state == Online ==> forall p | p in rows :: !Replayable(rows[p], objects, p)
      ensures found.Candidate? && old(binding).Some? ==>
        (found.drive in old(drives) && IdOf(old(drives)[found.drive]) == old(binding))
        || (state == Error && root == None && drives == old(drives))
      ensures found == NoDrive ==> state == Degraded && root == None && drives == old(drives)
      ensures found == DiscoveryFailed ==> state == Error && root == None && drives == old(drives)
      ensures rows.Keys <= old(rows.Keys) && tombs <= old(tombs)
      ensures IDENTITY !in old(rows) && IDENTITY !in old(tombs) ==>
        Bound() && (old(binding).Some? ==> AllKept(binding, old(drives), drives))
      ensures root.Some? && !(old(state) == Online && old(root) == root) && PROBE !in old(rows) ==>
        PROBE !in External()
      ensures drives.Keys == old(drives.Keys)
      ensures forall d | d in drives && found != Candidate(d) :: drives[d] == old(drives)[d]
    {
      hide ViewOf, SameBut, SameAt, Size, IdOf, Intact, Replayable;
      match found {
        case DiscoveryFailed =>
          OneChanged(binding, drives, drives, None);
          state, root := Error, None;
          return;
        case NoDrive =>
          OneChanged(binding, drives, drives, None);
          state, root := Degraded, None;
          return;
        case Candidate(c) =>
          UseCandidate(c, sync, newId);
      }
    }

    /** It is enough to look at the one drive that changed. */
    lemma OneChanged(bound: Option<Id>, before: map<Drive, Files>, after: map<Drive, Files>, c: Option<Drive>)
      requires forall d | d in before :: d in after && (Some(d) != c ==> after[d] == before[d])
      ensures (c.Some? && c.value in before ==> Kept(bound, before[c.value], after[c.value])) ==>
        AllKept(bound, before, after)
    {
    }

    lemma OnlyRootChanged(bound: Option<Id>, before: map<Drive, Files>, after: map<Drive, Files>, c: Option<Drive>)
      requires forall d | d in before :: d in after && (Some(d) != c ==> after[d] == before[d])
      requires c.Some? ==> c.value in before && IdOf(before[c.value]) == bound
      requires c.Some? ==> SameAt(before[c.value], after[c.value], IDENTITY)
      ensures AllKept(bound, before, after) && (c.Some? ==> IdOf(after[c.value]) == bound)
    {
      hide IdOf;
      if c.Some? {
        SameIdentity(before[c.value], after[c.value]);
      }
    }

    lemma KeptTwice(bound: Option<Id>, a: map<Drive, Files>, b: map<Drive, Files>, c: map<Drive, Files>)
      requires AllKept(bound, a, b) && AllKept(bound, b, c)
      ensures AllKept(bound, a, c)
    {
      forall d | d in a ensures Kept(bound, a[d], c[d]) {
        SameIdentity(a[d], b[d]);
      }
    }

    /** `refresh_once` with a candidate. */
    method UseCandidate(c: Drive, sync: bool, newId: Id)
      requires Valid()
      modifies this`binding, this`rows, this`tombs, this`objects, this`drives, this`state, this`root, this`home
      ensures Valid() && (old(Intact(rows, objects)) ==> Sound())
      ensures calm && old(Usable(c)) ==>
        state == if !sync && (rows != map[] || tombs != {}) then Recovering else Online
      ensures old(binding).Some? ==> binding == old(binding)
      ensures home == old(home) ==> View() == old(View())
      ensures home != old(home) ==>
        && home == Some(c) && c in old(drives) && (old(binding).Some? ==> IdOf(old(drives)[c]) == binding)
        && View() == ViewOf(old(drives)[c], old(rows), old(tombs), old(objects))
      ensures root.Some? ==> root == Some(c)
      ensures state == Online ==> root.Some? && tombs == {}
      ensures state == Online ==> forall p | p in rows :: !Replayable(rows[p], objects, p)
      ensures old(binding).Some? && !(c in old(drives) && IdOf(old(drives)[c]) == old(binding)) ==>
        state == Error && root == None && drives == old(drives)
      ensures rows.Keys <= old(rows.Keys) && tombs <= old(tombs)
      ensures IDENTITY !in old(rows) && IDENTITY !in old(tombs) ==>
        Bound() && (old(binding).Some? ==> AllKept(binding, old(drives), drives))
      ensures root.Some? && !(old(state) == Online && old(root) == root) && PROBE !in old(rows) ==>
        PROBE !in External()
      ensures drives.Keys == old(drives.Keys) && forall d | d in drives && d != c :: drives[d] == old(drives)[d]
    {
      hide ViewOf, SameBut, SameAt, Size, IdOf, Intact, Replayable;
      ghost var drives0 := drives;
      var ok := Connect(c, newId);
      if !ok {
        state, root := Error, None;
        OneChanged(binding, drives0, drives, Some(c));
        return;
      }
      ghost var drives1 := drives;
      Recover(c, sync);
      if SameAt(drives1[c], drives[c], IDENTITY) {
        SameIdentity(drives1[c], drives[c]);
        SameAtTwice(drives0[c], drives1[c], drives[c], IDENTITY);
        OneChanged(binding, drives0, drives, Some(c));
      }
    }

    lemma SameIdentity(a: Files, b: Files)
      requires SameAt(a, b, IDENTITY)
      ensures IdOf(a) == IdOf(b)
    {
    }

    /** The end of `refresh_once`: online at once if nothing is pending, else after synchronising. */
    method Recover(c: Drive, sync: bool)
      requires Valid() && c in drives && binding.Some?
      modifies this`rows, this`tombs, this`objects, this`drives, this`state, this`root, this`home
      ensures Valid() && View() == ViewOf(old(drives[c]), old(rows), old(tombs), old(objects))
      ensures home == Some(c) && (root.Some? ==> root == home) && (old(Intact(rows, objects)) ==> Sound())
      ensures calm ==> state == if !sync && (rows != map[] || tombs != {}) then Recovering else Online
      ensures state == Online ==> root.Some? && tombs == {} && forall p | p in rows :: !Replayable(rows[p], objects, p)
      ensures rows.Keys <= old(rows.Keys) && tombs <= old(tombs)
      ensures IDENTITY !in old(rows) && IDENTITY !in old(tombs) ==> SameAt(old(drives[c]), drives[c], IDENTITY)
      ensures PROBE !in old(rows) && PROBE !in old(drives[c]) ==> PROBE !in drives[c]
      ensures drives.Keys == old(drives.Keys) && forall d | d in drives && d != c :: drives[d] == old(drives)[d]
    {
      hide ViewOf, SameBut, SameAt, Size, IdOf, Intact, Replayable;
      SameAtSelf(drives[c], IDENTITY);
      var needsRecovery := rows != map[] || tombs != {};
      state, root, home := if needsRecovery then Recovering else Online, Some(c), Some(c);
      if !sync || !needsRecovery {
        return;
      }
      var end := SyncPending();
      if end != CutOff {
        state := if end == Done then Online else Error;
      }
      if state == Online && Intact(rows, objects) {
        NothingReplayable(rows, objects);
      }
    }
  }

  /** Changes to the two reserved files are not seen. */
  lemma ReservedChanges(a: Files, b: Files, c: Files, rows: map<Path, Row>, tombs: set<Path>, objects: Files)
    requires SameBut(a, b, IDENTITY) && SameBut(b, c, PROBE)
    ensures ViewOf(a, rows, tombs, objects) == ViewOf(c, rows, tombs, objects)
  {
    hide ViewOf, SameBut;
    HiddenChange(a, b, rows, tombs, objects, IDENTITY);
    HiddenChange(b, c, rows, tombs, objects, PROBE);
  }

  lemma SameAtSelf(a: Files, p: Path)
    ensures SameAt(a, a, p)
  {
  }

  lemma SameButTwice(a: Files, b: Files, c: Files, p: Path)
    requires SameBut(a, b, p) && SameBut(b, c, p)
    ensures SameBut(a, c, p)
  {
  }

  lemma SameAtTwice(a: Files, b: Files, c: Files, p: Path)
    ensures SameAt(a, b, p) && SameAt(b, c, p) ==> SameAt(a, c, p)
  {
  }

  predicate SameAt(a: Files, b: Files, p: Path) {
    (p in a <==> p in b) && (p in a ==> a[p] == b[p])
  }

  /** What synchronisation checks of a row before it writes. */
  predicate Replayable(row: Row, objects: Files, p: Path) {
    p in objects && row.digest == Digest(objects[p])
  }

  lemma NotReplayable(row: Row, objects: Files, p: Path)
    ensures Replayable(row, objects, p) <==> p in objects && row.digest == Digest(objects[p])
  {
  }

  lemma OthersReplayable(rows: map<Path, Row>, objects: Files, objects': Files, p: Path)
    requires objects == objects' || (objects' - {p} == objects - {p} && p !in rows)
    ensures forall q | q in rows :: Replayable(rows[q], objects', q) <==> Replayable(rows[q], objects, q)
  {
    if objects != objects' {
      forall q | q in rows ensures Replayable(rows[q], objects', q) <==> Replayable(rows[q], objects, q) {
        SameElsewhere(objects, objects', p, q);
      }
    }
  }

  lemma NothingReplayable(rows: map<Path, Row>, objects: Files)
    requires Intact(rows, objects) && forall p | p in rows :: !Replayable(rows[p], objects, p)
    ensures rows == map[]
  {
    assert forall p :: p in rows ==> IntactRow(rows[p], objects, p);
    assert rows.Keys == {};
  }

  lemma SavedOnDrive(ext: Files, rows: map<Path, Row>, tombs: set<Path>, objects: Files, p: Path, data: Bytes)
    ensures SameBut(ViewOf(ext, rows, tombs, objects), ViewOf(ext[p := data], rows, tombs - {p}, objects), p)
    ensures p !in rows ==>
      ViewOf(ext[p := data], rows, tombs - {p}, objects) == Put(ViewOf(ext, rows, tombs, objects), p, data)
  {
    hide ViewOf;
    ElsewhereUnchanged(ext, ext[p := data], rows, rows, tombs, tombs - {p}, objects, objects, p);
    if p !in rows {
      Saved(ext, ext[p := data], rows, rows, tombs, tombs - {p}, objects, objects, p, data);
    }
  }

  lemma DeletedAt(ext: Files, ext': Files, rows: map<Path, Row>, tombs: set<Path>, tombs': set<Path>, objects: Files,
      objects': Files, p: Path)
    requires SameBut(ext, ext', p) && SameBut(objects, objects', p) && tombs - {p} == tombs' - {p}
    requires p in tombs' || p !in ext'
    ensures var before, after := ViewOf(ext, rows, tombs, objects), ViewOf(ext', rows - {p}, tombs', objects');
            after == before - {p} && SameBut(before, after, p)
  {
    hide ViewOf, SameBut;
    Deleted(ext, ext', rows, tombs, tombs', objects, objects', p);
    ElsewhereUnchanged(ext, ext', rows, rows - {p}, tombs, tombs', objects, objects', p);
  }

  lemma RemovalKeepsIntact(rows: map<Path, Row>, objects: Files, p: Path)
    ensures Intact(rows, objects) ==> Intact(rows - {p}, objects) && Intact(rows - {p}, objects - {p})
  {
    hide IntactRow;
    forall q | Intact(rows, objects) && q in rows - {p} ensures IntactRow(rows[q], objects - {p}, q) {
      StaysIntact(rows[q], objects, p, q);
    }
  }

  lemma StaysIntact(row: Row, objects: Files, p: Path, q: Path)
    requires IntactRow(row, objects, q) && q != p
    ensures IntactRow(row, objects - {p}, q)
  {
  }

  lemma SameButMeans(a: Files, b: Files, p: Path)
    requires a - {p} == b - {p}
    ensures SameBut(a, b, p)
  {
  }

  lemma SoundAfterSave(rows: map<Path, Row>, objects: Files, objects': Files, p: Path, data: Bytes)
    requires SameBut(objects, objects', p)
    ensures Intact(rows, objects) ==> (Intact(rows, objects') <==> p !in rows || objects' == objects)
    ensures Intact(rows, objects) ==> Intact(rows[p := Row(Digest(data), |data|)], objects[p := data])
  {
    hide Intact, SameBut;
    if Intact(rows, objects) {
      DamageNeedsRow(rows, objects, objects', p);
      QueuedIsIntact(rows, objects, p, data);
    }
  }
}
