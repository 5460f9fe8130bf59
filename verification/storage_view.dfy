/** What the storage of ron/storage/manager.py holds, as one plain map, and what each single
    effect of its operations does to that map.
 */
module StorageView {
  import opened Common

  type Path = string
  type Files = map<Path, Bytes>

  /** An ideal hash: equal only for equal contents. */
  datatype Digest = Digest(content: Bytes)

  /** A row of the queue table; its path is its key, and names its object file too. */
  datatype Row = Row(digest: Digest, size: nat)

  const IDENTITY: Path := ".ron-storage.json"
  const PROBE: Path := "System/.ron-write-probe"

  /** The two files of a drive that belong to the manager itself. */
  const RESERVED: set<Path> := {IDENTITY, PROBE}

  /** What a read of the path is answered with once the drive is there: not what is marked
      deleted, the queued object before the drive's file. */
  function Look(ext: Files, rows: map<Path, Row>, tombs: set<Path>, objects: Files, p: Path): Option<Bytes> {
    if p in tombs then None
    else if p in rows && p in objects then Some(objects[p])
    else if p in ext then Some(ext[p])
    else None
  }

  /** The storage as one map. */
  function ViewOf(ext: Files, rows: map<Path, Row>, tombs: set<Path>, objects: Files): Files {
    map p | p in ext.Keys + objects.Keys && p !in RESERVED && Look(ext, rows, tombs, objects, p).Some? ::
      Look(ext, rows, tombs, objects, p).value
  }

  predicate SameBut(a: Files, b: Files, p: Path) {
    a - {p} == b - {p}
  }

  lemma SameElsewhere(a: Files, b: Files, p: Path, q: Path)
    requires SameBut(a, b, p) && q != p
    ensures q in a <==> q in b
    ensures q in a ==> a[q] == b[q]
  {
    assert q in a <==> q in a - {p};
    assert q in b <==> q in b - {p};
    if q in a {
      assert (a - {p})[q] == (b - {p})[q];
    }
  }

  /** Views compare path by path. */
  lemma ViewFromLook(ext: Files, rows: map<Path, Row>, tombs: set<Path>, objects: Files, p: Path)
    ensures p !in RESERVED ==>
      match Look(ext, rows, tombs, objects, p)
      case None => p !in ViewOf(ext, rows, tombs, objects)
      case Some(d) => p in ViewOf(ext, rows, tombs, objects) && ViewOf(ext, rows, tombs, objects)[p] == d
    ensures p in RESERVED ==> p !in ViewOf(ext, rows, tombs, objects)
  {
  }

  lemma SameButIsPut(a: Files, b: Files, p: Path)
    requires SameBut(a, b, p)
    ensures p in b ==> b == a[p := b[p]]
    ensures p !in b ==> b == a - {p}
    ensures p !in a && p !in b ==> a == b
    ensures p in a && p in b && a[p] == b[p] ==> a == b
  {
    forall q ensures q != p ==> (q in a <==> q in b) && (q in a ==> a[q] == b[q]) {
      if q != p {
        SameElsewhere(a, b, p, q);
      }
    }
  }

  /** Two states that look alike everywhere but at one path have the same view but there. */
  lemma AlikeBut(ext: Files, ext': Files, rows: map<Path, Row>, rows': map<Path, Row>,
                 tombs: set<Path>, tombs': set<Path>, objects: Files, objects': Files, p: Path)
    requires forall q | q != p :: Look(ext', rows', tombs', objects', q) == Look(ext, rows, tombs, objects, q)
    ensures SameBut(ViewOf(ext, rows, tombs, objects), ViewOf(ext', rows', tombs', objects'), p)
  {
    var a, b := ViewOf(ext, rows, tombs, objects), ViewOf(ext', rows', tombs', objects');
    hide ViewOf, Look;
    forall q ensures q != p ==> (q in a <==> q in b) && (q in a ==> a[q] == b[q]) {
      ViewFromLook(ext, rows, tombs, objects, q);
      ViewFromLook(ext', rows', tombs', objects', q);
    }
    assert a - {p} == b - {p};
  }

  lemma Alike(ext: Files, ext': Files, rows: map<Path, Row>, rows': map<Path, Row>,
              tombs: set<Path>, tombs': set<Path>, objects: Files, objects': Files, p: Path)
    requires forall q | q != p :: Look(ext', rows', tombs', objects', q) == Look(ext, rows, tombs, objects, q)
    requires p in RESERVED || Look(ext', rows', tombs', objects', p) == Look(ext, rows, tombs, objects, p)
    ensures ViewOf(ext', rows', tombs', objects') == ViewOf(ext, rows, tombs, objects)
  {
    hide ViewOf, Look;
    AlikeBut(ext, ext', rows, rows', tombs, tombs', objects, objects', p);
    ViewFromLook(ext, rows, tombs, objects, p);
    ViewFromLook(ext', rows', tombs', objects', p);
    SameButIsPut(ViewOf(ext, rows, tombs, objects), ViewOf(ext', rows', tombs', objects'), p);
  }

  // ---- what single effects do to the view

  /** After whatever happened at one path only, the rest looks as before. */
  lemma ElsewhereAlike(ext: Files, ext': Files, rows: map<Path, Row>, rows': map<Path, Row>,
                       tombs: set<Path>, tombs': set<Path>, objects: Files, objects': Files, p: Path, q: Path)
    requires SameBut(ext, ext', p) && SameBut(objects, objects', p) && rows - {p} == rows' - {p}
      && tombs - {p} == tombs' - {p}
    requires q != p
    ensures Look(ext', rows', tombs', objects', q) == Look(ext, rows, tombs, objects, q)
  {
    hide SameBut;
    SameElsewhere(ext, ext', p, q);
    SameElsewhere(objects, objects', p, q);
    assert q in rows <==> q in rows - {p};
    assert q in rows' <==> q in rows' - {p};
    assert q in tombs <==> q in tombs - {p};
    assert q in tombs' <==> q in tombs' - {p};
  }

  lemma ElsewhereUnchanged(ext: Files, ext': Files, rows: map<Path, Row>, rows': map<Path, Row>,
                           tombs: set<Path>, tombs': set<Path>, objects: Files, objects': Files, p: Path)
    requires SameBut(ext, ext', p) && SameBut(objects, objects', p) && rows - {p} == rows' - {p}
      && tombs - {p} == tombs' - {p}
    ensures SameBut(ViewOf(ext, rows, tombs, objects), ViewOf(ext', rows', tombs', objects'), p)
    ensures p in RESERVED || Look(ext', rows', tombs', objects', p) == Look(ext, rows, tombs, objects, p)
      ==> ViewOf(ext', rows', tombs', objects') == ViewOf(ext, rows, tombs, objects)
  {
    hide ViewOf, Look;
    forall q | q != p ensures Look(ext', rows', tombs', objects', q) == Look(ext, rows, tombs, objects, q) {
      ElsewhereAlike(ext, ext', rows, rows', tombs, tombs', objects, objects', p, q);
    }
    AlikeBut(ext, ext', rows, rows', tombs, tombs', objects, objects', p);
    if p in RESERVED || Look(ext', rows', tombs', objects', p) == Look(ext, rows, tombs, objects, p) {
      Alike(ext, ext', rows, rows', tombs, tombs', objects, objects', p);
    }
  }

  /** The drive's file under a tombstone or a queued object can change unseen. */
  lemma HiddenChange(ext: Files, ext': Files, rows: map<Path, Row>, tombs: set<Path>, objects: Files, p: Path)
    requires SameBut(ext, ext', p) && (p in tombs || (p in rows && p in objects) || p in RESERVED)
    ensures ViewOf(ext', rows, tombs, objects) == ViewOf(ext, rows, tombs, objects)
  {
    hide ViewOf, SameBut;
    SameButSelf(objects, p);
    ElsewhereUnchanged(ext, ext', rows, rows, tombs, tombs, objects, objects, p);
  }

  /** A queued object that is on the drive too can leave the queue. */
  lemma SettleWrite(ext: Files, rows: map<Path, Row>, tombs: set<Path>, objects: Files, p: Path)
    requires p in objects && p in ext && ext[p] == objects[p]
    ensures ViewOf(ext, rows - {p}, tombs, objects) == ViewOf(ext, rows, tombs, objects)
  {
    hide ViewOf;
    ElsewhereUnchanged(ext, ext, rows, rows - {p}, tombs, tombs, objects, objects, p);
  }

  /** An object file without a row counts for nothing. */
  lemma OrphanChange(ext: Files, rows: map<Path, Row>, tombs: set<Path>, objects: Files, objects': Files, p: Path)
    requires SameBut(objects, objects', p) && p !in rows
    ensures ViewOf(ext, rows, tombs, objects') == ViewOf(ext, rows, tombs, objects)
  {
    hide ViewOf, SameBut;
    SameButSelf(ext, p);
    ElsewhereUnchanged(ext, ext, rows, rows, tombs, tombs, objects, objects', p);
  }

  lemma SameButSelf(a: Files, p: Path)
    ensures SameBut(a, a, p)
  {
  }

  /** A tombstone for a path that is nowhere can go. */
  lemma SettleDeletion(ext: Files, rows: map<Path, Row>, tombs: set<Path>, objects: Files, p: Path)
    requires p !in ext && p !in rows
    ensures ViewOf(ext, rows, tombs - {p}, objects) == ViewOf(ext, rows, tombs, objects)
  {
    hide ViewOf;
    ElsewhereUnchanged(ext, ext, rows, rows, tombs, tombs - {p}, objects, objects, p);
  }

  /** The map after a save: nothing but the path changes, and a reserved path is in no map. */
  function Put(view: Files, p: Path, data: Bytes): Files {
    if p in RESERVED then view else view[p := data]
  }

  /** A path comes to look like the data, and nothing else changes. */
  lemma Saved(ext: Files, ext': Files, rows: map<Path, Row>, rows': map<Path, Row>,
              tombs: set<Path>, tombs': set<Path>, objects: Files, objects': Files, p: Path, data: Bytes)
    requires SameBut(ext, ext', p) && SameBut(objects, objects', p) && rows - {p} == rows' - {p}
      && tombs - {p} == tombs' - {p}
    requires Look(ext', rows', tombs', objects', p) == Some(data)
    ensures ViewOf(ext', rows', tombs', objects') == Put(ViewOf(ext, rows, tombs, objects), p, data)
  {
    hide ViewOf, Look, SameBut;
    ElsewhereUnchanged(ext, ext', rows, rows', tombs, tombs', objects, objects', p);
    ViewFromLook(ext', rows', tombs', objects', p);
    SameButIsPut(ViewOf(ext, rows, tombs, objects), ViewOf(ext', rows', tombs', objects'), p);
  }

  lemma WriteThrough(ext: Files, rows: map<Path, Row>, tombs: set<Path>, objects: Files, p: Path, data: Bytes)
    requires p !in tombs && !(p in rows && p in objects && objects[p] != data)
    ensures ViewOf(ext[p := data], rows, tombs, objects) == Put(ViewOf(ext, rows, tombs, objects), p, data)
  {
    hide ViewOf;
    Saved(ext, ext[p := data], rows, rows, tombs, tombs, objects, objects, p, data);
  }

  /** A save that reaches the drive is seen exactly if no queued object stands before it: this is
      why a manager that is online must have nothing queued. */
  lemma StaleObjectShadowsSave(ext: Files, rows: map<Path, Row>, tombs: set<Path>, objects: Files, p: Path, data: Bytes)
    requires p !in tombs && p !in RESERVED
    ensures ViewOf(ext[p := data], rows, tombs, objects) == ViewOf(ext, rows, tombs, objects)[p := data]
      <==> !(p in rows && p in objects && objects[p] != data)
  {
    hide ViewOf;
    if p in rows && p in objects && objects[p] != data {
      ViewFromLook(ext[p := data], rows, tombs, objects, p);
    } else {
      WriteThrough(ext, rows, tombs, objects, p, data);
    }
  }

  lemma WriteToQueue(ext: Files, ext': Files, rows: map<Path, Row>, tombs: set<Path>, objects: Files, p: Path,
      data: Bytes, row: Row)
    requires SameBut(ext, ext', p)
    ensures ViewOf(ext', rows[p := row], tombs - {p}, objects[p := data]) ==
      Put(ViewOf(ext, rows, tombs, objects), p, data)
  {
    hide ViewOf;
    Saved(ext, ext', rows, rows[p := row], tombs, tombs - {p}, objects, objects[p := data], p, data);
  }

  lemma Deleted(ext: Files, ext': Files, rows: map<Path, Row>, tombs: set<Path>, tombs': set<Path>, objects: Files,
      objects': Files, p: Path)
    requires SameBut(ext, ext', p) && SameBut(objects, objects', p) && tombs - {p} == tombs' - {p}
    requires p in tombs' || p !in ext'
    ensures ViewOf(ext', rows - {p}, tombs', objects') == ViewOf(ext, rows, tombs, objects) - {p}
  {
    hide ViewOf, SameBut;
    ElsewhereUnchanged(ext, ext', rows, rows - {p}, tombs, tombs', objects, objects', p);
    ViewFromLook(ext', rows - {p}, tombs', objects', p);
    SameButIsPut(ViewOf(ext, rows, tombs, objects), ViewOf(ext', rows - {p}, tombs', objects'), p);
  }

  /** Taking a tombstone back changes nothing exactly if the drive has no file under it. */
  lemma TakingBackRevives(ext: Files, rows: map<Path, Row>, tombs: set<Path>, objects: Files, p: Path)
    requires rows.Keys !! tombs
    ensures ViewOf(ext, rows, tombs - {p}, objects) == ViewOf(ext, rows, tombs, objects)
      <==> !(p in tombs && p in ext && p !in RESERVED)
  {
    hide ViewOf;
    ElsewhereUnchanged(ext, ext, rows, rows, tombs, tombs - {p}, objects, objects, p);
    ViewFromLook(ext, rows, tombs, objects, p);
    ViewFromLook(ext, rows, tombs - {p}, objects, p);
  }

  /** With nothing pending the map is what is on the drive. */
  lemma NothingPendingIsTheDrive(ext: Files, objects: Files)
    ensures ViewOf(ext, map[], {}, objects) == ext - RESERVED
  {
    forall p ensures p in ViewOf(ext, map[], {}, objects) <==> p in ext - RESERVED {
      ViewFromLook(ext, map[], {}, objects, p);
    }
  }

  /** What is queued, over what a drive holds but for the reserved files and those marked deleted. */
  function Over(queued: Files, deleted: set<Path>, files: Files): Files {
    (files - RESERVED - deleted) + queued
  }

  /** The laptop's share of the map does not depend on the drive: another drive exchanges the rest. */
  lemma QueueOverDrive(ext: Files, rows: map<Path, Row>, tombs: set<Path>, objects: Files)
    ensures ViewOf(ext, rows, tombs, objects) == Over(ViewOf(map[], rows, tombs, objects), tombs, ext)
  {
    hide ViewOf, Look;
    var view, queued := ViewOf(ext, rows, tombs, objects), ViewOf(map[], rows, tombs, objects);
    var over := Over(queued, tombs, ext);
    forall p ensures (p in view <==> p in over) && (p in view ==> view[p] == over[p]) {
      ViewFromLook(map[], rows, tombs, objects, p);
      ViewFromLook(ext, rows, tombs, objects, p);
      LookOver(ext, rows, tombs, objects, p);
    }
  }

  lemma LookOver(ext: Files, rows: map<Path, Row>, tombs: set<Path>, objects: Files, p: Path)
    ensures var queued := Look(map[], rows, tombs, objects, p);
      Look(ext, rows, tombs, objects, p) ==
        if queued.Some? || p in tombs then queued else if p in ext then Some(ext[p]) else None
  {
  }

  // ---- the size of the queue

  ghost function Size(rows: map<Path, Row>): nat {
    if rows == map[] then 0
    else
      var p :| p in rows;
      rows[p].size + Size(rows - {p})
  }

  /** The sum does not depend on the order it is taken in. */
  lemma {:induction false} SizeWithout(rows: map<Path, Row>, p: Path)
    requires p in rows
    ensures Size(rows) == rows[p].size + Size(rows - {p})
    decreases |rows|
  {
    var q :| q in rows && Size(rows) == rows[q].size + Size(rows - {q});
    if q != p {
      SizeWithout(rows - {q}, p);
      SizeWithout(rows - {p}, q);
      assert rows - {q} - {p} == rows - {p} - {q};
    }
  }

  lemma SizeOfUpdate(rows: map<Path, Row>, p: Path, row: Row)
    ensures Size(rows[p := row]) == Size(rows) - (if p in rows then rows[p].size else 0) + row.size
  {
    SizeWithout(rows[p := row], p);
    if p in rows {
      SizeWithout(rows, p);
      assert rows[p := row] - {p} == rows - {p};
    } else {
      assert rows[p := row] - {p} == rows;
    }
  }

  ghost function PayloadSize(rows: map<Path, Row>, objects: Files): nat
    requires rows.Keys <= objects.Keys
  {
    if rows == map[] then 0
    else
      var p :| p in rows;
      |objects[p]| + PayloadSize(rows - {p}, objects)
  }

  /** The row tells the truth about its object. */
  predicate IntactRow(row: Row, objects: Files, p: Path) {
    p in objects && row.digest == Digest(objects[p]) && row.size == |objects[p]|
  }

  predicate Intact(rows: map<Path, Row>, objects: Files) {
    forall p | p in rows :: IntactRow(rows[p], objects, p)
  }

  /** A change to one object file damages the queue exactly if the file has a row. */
  lemma DamageNeedsRow(rows: map<Path, Row>, objects: Files, objects': Files, p: Path)
    requires Intact(rows, objects) && SameBut(objects, objects', p)
    ensures Intact(rows, objects') <==> p !in rows || objects' == objects
  {
    forall q ensures q != p ==> (q in objects <==> q in objects') && (q in objects ==> objects[q] == objects'[q]) {
      if q != p {
        SameElsewhere(objects, objects', p, q);
      }
    }
    if p in rows && Intact(rows, objects') {
      assert IntactRow(rows[p], objects, p) && IntactRow(rows[p], objects', p);
      assert objects == objects';
    }
  }

  lemma QueuedIsIntact(rows: map<Path, Row>, objects: Files, p: Path, data: Bytes)
    requires Intact(rows, objects)
    ensures Intact(rows[p := Row(Digest(data), |data|)], objects[p := data])
  {
    forall q | q in rows && q != p ensures IntactRow(rows[q], objects[p := data], q) {
      assert IntactRow(rows[q], objects, q);
    }
  }

  lemma {:induction false} SizeIsPayload(rows: map<Path, Row>, objects: Files)
    requires Intact(rows, objects)
    ensures rows.Keys <= objects.Keys && Size(rows) == PayloadSize(rows, objects)
    decreases |rows|
  {
    if rows != map[] {
      var p :| p in rows && PayloadSize(rows, objects) == |objects[p]| + PayloadSize(rows - {p}, objects);
      SizeWithout(rows, p);
      SizeIsPayload(rows - {p}, objects);
    }
  }
}
