/** Copying what a frame draws out of the entity world, in one pass or in chunks. */
module RenderExtraction {
  import opened Wrappers
  import opened ChunkedWork
  import opened RenderPlans

  /** A row of the camera query; the lens is what its transform and projection come to. */
  datatype Camera = Camera(entity: Id, lens: Result<nat, nat>)

  /** A row of the renderable query with the handles it names. */
  datatype Renderable = Renderable(entity: Id, transform: nat, mesh: nat, material: nat)

  /** The resident resources by handle: the state all workers see while the world stays read-only. */
  datatype Resources = Resources(meshes: map<nat, Resource>, materials: map<nat, Resource>)

  datatype Snapshot = Snapshot(world: World, records: seq<Resource>)

  datatype Refusal = NotDrawing | NoChunks

  function TryAcquire(resident: map<nat, Resource>, handle: nat): Option<Resource> {
    if handle in resident then Some(resident[handle]) else None
  }

  // -------------------------------------------------- what is to be copied

  function ViewOf(camera: Camera): View { View(camera.entity, camera.lens) }

  ghost function ViewsOf(cameras: seq<Camera>): seq<View> {
    seq(|cameras|, i requires 0 <= i < |cameras| => ViewOf(cameras[i]))
  }

  /** The object of a row whose mesh and material are both resident. */
  function ObjectOf(resources: Resources, row: Renderable): Option<Object> {
    var mesh := TryAcquire(resources.meshes, row.mesh);
    var material := TryAcquire(resources.materials, row.material);
    if mesh.None? || material.None? then None else Some(Object(row.entity, row.transform, mesh.value, material.value))
  }

  ghost function ObjectsOf(resources: Resources, rows: seq<Renderable>): seq<Object> {
    if rows == [] then []
    else (match ObjectOf(resources, rows[0]) case Some(o) => [o] case None => []) + ObjectsOf(resources, rows[1..])
  }

  ghost function RecordsOf(objects: seq<Object>): seq<Resource> {
    if objects == [] then [] else [objects[0].mesh, objects[0].material] + RecordsOf(objects[1..])
  }

  ghost function Extracted(resources: Resources, cameras: seq<Camera>, rows: seq<Renderable>): Snapshot {
    Snapshot(World(ViewsOf(cameras), ObjectsOf(resources, rows)), RecordsOf(ObjectsOf(resources, rows)))
  }

  lemma {:induction false} ObjectsJoin(resources: Resources, a: seq<Renderable>, b: seq<Renderable>)
    ensures ObjectsOf(resources, a + b) == ObjectsOf(resources, a) + ObjectsOf(resources, b)
  {
    if a == [] {
      assert a + b == b;
    } else {
      assert (a + b)[1..] == a[1..] + b;
      ObjectsJoin(resources, a[1..], b);
    }
  }

  lemma {:induction false} RecordsJoin(a: seq<Object>, b: seq<Object>)
    ensures RecordsOf(a + b) == RecordsOf(a) + RecordsOf(b)
  {
    if a == [] {
      assert a + b == b;
    } else {
      assert (a + b)[1..] == a[1..] + b;
      RecordsJoin(a[1..], b);
    }
  }

  lemma OneMoreRow(resources: Resources, rows: seq<Renderable>, lo: nat, k: nat)
    requires lo <= k < |rows|
    ensures ObjectsOf(resources, rows[lo..k + 1]) ==
            ObjectsOf(resources, rows[lo..k]) + match ObjectOf(resources, rows[k]) { case Some(o) => [o] case None => [] }
  {
    assert rows[lo..k + 1] == rows[lo..k] + [rows[k]];
    ObjectsJoin(resources, rows[lo..k], [rows[k]]);
    assert [rows[k]][1..] == [];
  }

  lemma OneMoreRecord(objects: seq<Object>, o: Object)
    ensures RecordsOf(objects + [o]) == RecordsOf(objects) + [o.mesh, o.material]
  {
    RecordsJoin(objects, [o]);
    assert [o][1..] == [];
  }

  // ------------------------------------------------------------ one pass

  method ExtractRenderWorld(drawing: bool, resources: Resources, cameras: seq<Camera>, rows: seq<Renderable>)
    returns (snapshot: Result<Snapshot, Refusal>)
    ensures snapshot == if !drawing then Err(NotDrawing) else Ok(Extracted(resources, cameras, rows))
  {
    if !drawing {
      return Err(NotDrawing);
    }
    var views: seq<View>, objects: seq<Object>, records: seq<Resource> := [], [], [];
    for k := 0 to |cameras|
      invariant views == ViewsOf(cameras[..k])
    {
      views := views + [ViewOf(cameras[k])];
    }
    for k := 0 to |rows|
      invariant objects == ObjectsOf(resources, rows[..k]) && records == RecordsOf(objects)
    {
      assert rows[0..k] == rows[..k] && rows[0..k + 1] == rows[..k + 1];
      OneMoreRow(resources, rows, 0, k);
      var obj := ObjectOf(resources, rows[k]);
      if obj.Some? {
        OneMoreRecord(objects, obj.value);
        objects := objects + [obj.value];
        records := records + [obj.value.mesh, obj.value.material];
      }
    }
    assert cameras[..|cameras|] == cameras && rows[..|rows|] == rows;
    snapshot := Ok(Snapshot(World(views, objects), records));
  }

  // ----------------------------------------------------------- in chunks

  datatype Part = Part(views: seq<View>, objects: seq<Object>)

  /** An item position, or the end of a list that is shorter than that. */
  function Clip<T>(xs: seq<T>, k: nat): nat { if k <= |xs| then k else |xs| }

  ghost function Cut<T>(xs: seq<T>, lo: nat, hi: nat): seq<T>
    requires lo <= hi
  {
    xs[Clip(xs, lo)..Clip(xs, hi)]
  }

  ghost function PartOf(resources: Resources, cameras: seq<Camera>, rows: seq<Renderable>, lo: nat, hi: nat): Part
    requires lo <= hi
  {
    Part(ViewsOf(Cut(cameras, lo, hi)), ObjectsOf(resources, Cut(rows, lo, hi)))
  }

  /** One worker: the views and the objects whose positions lie in the chunk. */
  method ExtractPart(resources: Resources, cameras: seq<Camera>, rows: seq<Renderable>, lo: nat, hi: nat) returns (part: Part)
    requires lo <= hi
    ensures part == PartOf(resources, cameras, rows, lo, hi)
  {
    var views: seq<View>, objects: seq<Object> := [], [];
    for item := lo to hi
      invariant views == ViewsOf(Cut(cameras, lo, item)) && objects == ObjectsOf(resources, Cut(rows, lo, item))
    {
      if item < |cameras| {
        views := views + [ViewOf(cameras[item])];
      }
      if item < |rows| {
        OneMoreRow(resources, rows, lo, item);
        var obj := ObjectOf(resources, rows[item]);
        if obj.Some? {
          objects := objects + [obj.value];
        }
      }
    }
    part := Part(views, objects);
  }

  function WorkCount(cameras: seq<Camera>, rows: seq<Renderable>): nat {
    if |cameras| >= |rows| then |cameras| else |rows|
  }

  ghost predicate HoldsParts(resources: Resources, cameras: seq<Camera>, rows: seq<Renderable>, size: nat, parts: seq<Part>) {
    size > 0 && |parts| == ChunkCount(WorkCount(cameras, rows), size) &&
    forall c :: 0 <= c < |parts| ==> parts[c] == ChunkPart(resources, cameras, rows, size, c)
  }

  ghost function ChunkPart(resources: Resources, cameras: seq<Camera>, rows: seq<Renderable>, size: nat, c: nat): Part
    requires size > 0 && c < ChunkCount(WorkCount(cameras, rows), size)
  {
    var count := WorkCount(cameras, rows);
    ChunksTile(count, size, c);
    PartOf(resources, cameras, rows, ChunkStart(count, size, c), ChunkStart(count, size, c + 1))
  }

  lemma ScheduledChunks(order: seq<nat>, n: nat)
    requires IsSchedule(order, n)
    ensures forall k :: 0 <= k < |order| ==> order[k] < n
    ensures forall c: nat :: c < n ==> c in order
  {
  }

  method ExtractChunks(resources: Resources, cameras: seq<Camera>, rows: seq<Renderable>, size: nat, order: seq<nat>)
    returns (parts: array<Part>)
    requires size > 0 && IsSchedule(order, ChunkCount(WorkCount(cameras, rows), size))
    ensures HoldsParts(resources, cameras, rows, size, parts[..])
  {
    hide WorkCount, ChunkCount, ChunkStart, IsSchedule, PartOf;
    ScheduledChunks(order, ChunkCount(WorkCount(cameras, rows), size));
    var count := WorkCount(cameras, rows);
    parts := new Part[ChunkCount(count, size)](_ => Part([], []));
    for k := 0 to |order|
      invariant forall j :: 0 <= j < k ==> parts[order[j]] == ChunkPart(resources, cameras, rows, size, order[j])
    {
      var index := order[k];
      ChunksTile(count, size, index);
      var begin := index * size;
      var end := begin + if size <= count - begin then size else count - begin;
      var part := ExtractPart(resources, cameras, rows, begin, end);
      parts[index] := part;
    }
    forall c | 0 <= c < parts.Length
      ensures parts[c] == ChunkPart(resources, cameras, rows, size, c)
    {
      assert c in order;
    }
  }

  /** The snapshot of everything before the c-th chunk. */
  ghost function ExtractedBefore(resources: Resources, cameras: seq<Camera>, rows: seq<Renderable>, size: nat, c: nat): Snapshot {
    var n := ChunkStart(WorkCount(cameras, rows), size, c);
    Extracted(resources, Cut(cameras, 0, n), Cut(rows, 0, n))
  }

  lemma CutsJoin<T>(xs: seq<T>, lo: nat, hi: nat)
    requires lo <= hi
    ensures Cut(xs, 0, hi) == Cut(xs, 0, lo) + Cut(xs, lo, hi)
  {
  }

  lemma ViewsJoin(a: seq<Camera>, b: seq<Camera>)
    ensures ViewsOf(a + b) == ViewsOf(a) + ViewsOf(b)
  {
  }

  lemma JoinOneMore(resources: Resources, cameras: seq<Camera>, rows: seq<Renderable>, size: nat, c: nat, parts: seq<Part>)
    requires HoldsParts(resources, cameras, rows, size, parts) && c < |parts|
    ensures var was, now := ExtractedBefore(resources, cameras, rows, size, c), ExtractedBefore(resources, cameras, rows, size, c + 1);
            && now.world.views == was.world.views + parts[c].views
            && now.world.objects == was.world.objects + parts[c].objects
            && now.records == was.records + RecordsOf(parts[c].objects)
  {
    hide ViewsOf, ObjectsOf, RecordsOf, Cut, ChunkStart, ChunkCount;
    var count := WorkCount(cameras, rows);
    ChunksTile(count, size, c);
    var lo, hi := ChunkStart(count, size, c), ChunkStart(count, size, c + 1);
    CutsJoin(cameras, lo, hi);
    CutsJoin(rows, lo, hi);
    ViewsJoin(Cut(cameras, 0, lo), Cut(cameras, lo, hi));
    ObjectsJoin(resources, Cut(rows, 0, lo), Cut(rows, lo, hi));
    RecordsJoin(ObjectsOf(resources, Cut(rows, 0, lo)), parts[c].objects);
  }

  lemma JoinedAll(resources: Resources, cameras: seq<Camera>, rows: seq<Renderable>, size: nat, parts: seq<Part>)
    requires HoldsParts(resources, cameras, rows, size, parts)
    ensures ExtractedBefore(resources, cameras, rows, size, 0) == Snapshot(World([], []), [])
    ensures ExtractedBefore(resources, cameras, rows, size, |parts|) == Extracted(resources, cameras, rows)
  {
    ChunksEnd(WorkCount(cameras, rows), size);
    assert Cut(cameras, 0, WorkCount(cameras, rows)) == cameras && Cut(rows, 0, WorkCount(cameras, rows)) == rows;
  }

  method JoinParts(resources: Resources, cameras: seq<Camera>, rows: seq<Renderable>, size: nat, parts: seq<Part>)
    returns (snapshot: Snapshot)
    requires HoldsParts(resources, cameras, rows, size, parts)
    ensures snapshot == Extracted(resources, cameras, rows)
  {
    hide HoldsParts, ExtractedBefore, Extracted;
    var views: seq<View>, objects: seq<Object>, records: seq<Resource> := [], [], [];
    JoinedAll(resources, cameras, rows, size, parts);
    for c := 0 to |parts|
      invariant Snapshot(World(views, objects), records) == ExtractedBefore(resources, cameras, rows, size, c)
    {
      JoinOneMore(resources, cameras, rows, size, c, parts);
      var part := parts[c];
      views := views + part.views;
      ghost var objectsBefore, recordsBefore := objects, records;
      for k := 0 to |part.objects|
        invariant objects == objectsBefore + part.objects[..k] && records == recordsBefore + RecordsOf(part.objects[..k])
      {
        assert part.objects[..k + 1] == part.objects[..k] + [part.objects[k]];
        OneMoreRecord(part.objects[..k], part.objects[k]);
        records := records + [part.objects[k].mesh, part.objects[k].material];
        objects := objects + [part.objects[k]];
      }
      assert part.objects[..|part.objects|] == part.objects;
    }
    snapshot := Snapshot(World(views, objects), records);
  }

  /** Extracting in chunks gives the snapshot of the single pass, whatever the chunk size and whichever worker is first. */
  method ScheduleRenderWorldExtraction(drawing: bool, resources: Resources, cameras: seq<Camera>, rows: seq<Renderable>,
                                       size: nat, order: seq<nat>)
    returns (snapshot: Result<Snapshot, Refusal>)
    requires size > 0 ==> IsSchedule(order, ChunkCount(WorkCount(cameras, rows), size))
    ensures snapshot == if !drawing then Err(NotDrawing) else if size == 0 then Err(NoChunks) else Ok(Extracted(resources, cameras, rows))
  {
    if !drawing {
      return Err(NotDrawing);
    }
    if size == 0 {
      return Err(NoChunks);
    }
    var parts := ExtractChunks(resources, cameras, rows, size, order);
    var joined := JoinParts(resources, cameras, rows, size, parts[..]);
    snapshot := Ok(joined);
  }

  // ------------------------------------------------ what the snapshot holds

  /** The objects are the rows with resident resources, in row order: each has its place, and none is left out. */
  lemma {:induction false} ObjectsAreResidentRows(resources: Resources, rows: seq<Renderable>) returns (from: seq<nat>)
    ensures |from| == |ObjectsOf(resources, rows)|
    ensures forall k :: 0 <= k < |from| ==> from[k] < |rows| && ObjectOf(resources, rows[from[k]]) == Some(ObjectsOf(resources, rows)[k])
    ensures forall i, j :: 0 <= i < j < |from| ==> from[i] < from[j]
    ensures forall r: nat :: r < |rows| && ObjectOf(resources, rows[r]).Some? ==> r in from
  {
    hide ObjectOf;
    if rows == [] {
      from := [];
    } else {
      var n: nat := |rows| - 1;
      assert rows[0..n] == rows[..n] && rows[0..n + 1] == rows;
      OneMoreRow(resources, rows, 0, n);
      from := ObjectsAreResidentRows(resources, rows[..n]);
      if ObjectOf(resources, rows[n]).Some? {
        var longer := from + [n];
        assert longer[|from|] == n;
        assert forall r :: r in from ==> r in longer;
        from := longer;
      }
    }
  }

  /** A query visits an entity once, so the snapshot's identities are distinct and its plan is determined. */
  lemma SnapshotIdsAreDistinct(resources: Resources, cameras: seq<Camera>, rows: seq<Renderable>)
    requires forall i, j :: 0 <= i < j < |cameras| ==> cameras[i].entity != cameras[j].entity
    requires forall i, j :: 0 <= i < j < |rows| ==> rows[i].entity != rows[j].entity
    ensures DistinctIds(Extracted(resources, cameras, rows).world)
  {
    hide RecordsOf, ObjectsOf, ViewsOf;
    var world := Extracted(resources, cameras, rows).world;
    forall i, j | 0 <= i < j < |world.views|
      ensures world.views[i].id != world.views[j].id
    {
      ViewIdsDiffer(cameras, i, j);
    }
    forall i, j | 0 <= i < j < |world.objects|
      ensures world.objects[i].id != world.objects[j].id
    {
      ObjectIdsDiffer(resources, rows, i, j);
    }
  }

  lemma ViewIdsDiffer(cameras: seq<Camera>, i: nat, j: nat)
    requires forall a, b :: 0 <= a < b < |cameras| ==> cameras[a].entity != cameras[b].entity
    requires i < j < |ViewsOf(cameras)|
    ensures ViewsOf(cameras)[i].id != ViewsOf(cameras)[j].id
  {
    assert cameras[i].entity != cameras[j].entity;
  }

  lemma ObjectIdsDiffer(resources: Resources, rows: seq<Renderable>, i: nat, j: nat)
    requires forall a, b :: 0 <= a < b < |rows| ==> rows[a].entity != rows[b].entity
    requires i < j < |ObjectsOf(resources, rows)|
    ensures ObjectsOf(resources, rows)[i].id != ObjectsOf(resources, rows)[j].id
  {
    hide ObjectsOf, ObjectOf;
    var objects := ObjectsOf(resources, rows);
    var from := ObjectsAreResidentRows(resources, rows);
    assert rows[from[i]].entity != rows[from[j]].entity;
    ObjectKeepsEntity(resources, rows[from[i]], objects[i]);
    ObjectKeepsEntity(resources, rows[from[j]], objects[j]);
  }

  lemma ObjectKeepsEntity(resources: Resources, row: Renderable, o: Object)
    requires ObjectOf(resources, row) == Some(o)
    ensures o.id == row.entity
  {
  }

  /** A frame's plan depends on the world and its resources alone, not on chunk sizes or on who worked first. */
  lemma FramePlanIsDetermined(resources: Resources, cameras: seq<Camera>, rows: seq<Renderable>,
                              p: Result<Plan, Fault>, q: Result<Plan, Fault>)
    requires forall i, j :: 0 <= i < j < |cameras| ==> cameras[i].entity != cameras[j].entity
    requires forall i, j :: 0 <= i < j < |rows| ==> rows[i].entity != rows[j].entity
    requires IsPrepared(Extracted(resources, cameras, rows).world, p)
    requires IsPrepared(Extracted(resources, cameras, rows).world, q)
    ensures p == q
  {
    SnapshotIdsAreDistinct(resources, cameras, rows);
    PlanIsDetermined(Extracted(resources, cameras, rows).world, p, q);
  }
}
