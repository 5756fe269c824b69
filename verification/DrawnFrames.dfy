/** What a frame draws, over the cameras, the rows and the resident resources: which commands its plan holds, in what
    order, how they are batched, and why there is none. */
module DrawnFrames {
  import opened Wrappers
  import opened Sorting
  import opened ChunkedWork
  import opened RenderPlans
  import opened RenderExtraction

  // ----------------------------------------------------------- single items

  lemma {:induction false} ItemsGathered(world: World, hi: nat)
    requires hi <= |world.views| * |world.objects|
    ensures var items := Gather(Items(world), 0, hi);
      && (items.Ok? ==> |items.value| == hi && forall n :: 0 <= n < hi ==> PrepareItem(world, n) == Ok(items.value[n]))
      && (items.Err? ==>
            exists n :: 0 <= n < hi && PrepareItem(world, n) == Err(items.error)
                        && forall m :: 0 <= m < n ==> PrepareItem(world, m).Ok?)
    decreases hi
  {
    hide PrepareItem;
    if hi > 0 {
      ItemsGathered(world, hi - 1);
      GatherOneMore(Items(world), 0, hi - 1);
    }
  }

  /** The number of the item of a view and an object. */
  lemma ItemOf(world: World, v: nat, o: nat) returns (n: nat)
    requires v < |world.views| && o < |world.objects|
    ensures n == v * |world.objects| + o < |world.views| * |world.objects|
    ensures n / |world.objects| == v && n % |world.objects| == o
  {
    var objects := |world.objects|;
    n := v * objects + o;
    ProductBelow(v + 1, |world.views|, objects);
    assert (v + 1) * objects == v * objects + objects;
    Divides(v, o, objects);
  }

  lemma Divides(v: nat, o: nat, objects: nat)
    requires o < objects
    ensures (v * objects + o) / objects == v && (v * objects + o) % objects == o
  {
    var n := v * objects + o;
    var q, r := n / objects, n % objects;
    assert n == q * objects + r;
    assert (q + 1) * objects == q * objects + objects;
    assert (v + 1) * objects == v * objects + objects;
    if q < v {
      ProductBelow(q + 1, v, objects);
    } else if q > v {
      ProductBelow(v + 1, q, objects);
    }
  }

  /** The command that draws an object in a view. */
  ghost predicate Draws(c: Command, view: View, drawn: Object) {
    && view.projection == Ok(c.camera) && c.view == view.id
    && c.entity == drawn.id && c.transform == drawn.transform && c.mesh == drawn.mesh && c.material == drawn.material
  }

  lemma ItemDraws(world: World, n: nat)
    requires n < |world.views| * |world.objects|
    ensures |world.objects| > 0 && n / |world.objects| < |world.views| && n % |world.objects| < |world.objects|
    ensures var view := world.views[n / |world.objects|];
      match PrepareItem(world, n)
      case Ok(c) => Draws(c, view, world.objects[n % |world.objects|])
      case Err(e) => view.projection.Err? && e == BadCamera(view.projection.error)
  {
    ItemInRange(world, n);
  }

  // ------------------------------------------------------------ whole plans

  /** Some command draws the object in the view. */
  ghost predicate IsDrawn(commands: seq<Command>, view: View, drawn: Object) {
    exists c :: c in commands && Draws(c, view, drawn)
  }

  /** The command draws some object in some view. */
  ghost predicate DrawsPair(world: World, c: Command) {
    exists v, o :: 0 <= v < |world.views| && 0 <= o < |world.objects| && Draws(c, world.views[v], world.objects[o])
  }

  /**
   * A plan has one command for each view and each object, and no other: there are as many as pairs, every pair is drawn,
   * and every command draws a pair.
   */
  lemma PlanDrawsPairs(world: World, plan: Plan)
    requires IsPrepared(world, Ok(plan))
    ensures |plan.commands| == |world.views| * |world.objects|
    ensures forall v, o :: 0 <= v < |world.views| && 0 <= o < |world.objects| ==>
              IsDrawn(plan.commands, world.views[v], world.objects[o])
    ensures forall c :: c in plan.commands ==> DrawsPair(world, c)
  {
    hide ItemCount, AllItems, IsDrawn, DrawsPair, SortedBy, Batched;
    var commands := AllItems(world).value;
    ItemsDrawPairs(world, commands);
    SameMembers(commands, plan.commands);
    forall v, o | 0 <= v < |world.views| && 0 <= o < |world.objects|
      ensures IsDrawn(plan.commands, world.views[v], world.objects[o])
    {
      DrawnToo(commands, plan.commands, world.views[v], world.objects[o]);
    }
  }

  lemma ItemsDrawPairs(world: World, commands: seq<Command>)
    requires AllItems(world) == Ok(commands)
    ensures |commands| == |world.views| * |world.objects|
    ensures forall v, o :: 0 <= v < |world.views| && 0 <= o < |world.objects| ==>
              IsDrawn(commands, world.views[v], world.objects[o])
    ensures forall c :: c in commands ==> DrawsPair(world, c)
  {
    hide PrepareItem, Draws, IsDrawn, DrawsPair;
    ItemsGathered(world, |world.views| * |world.objects|);
    forall v, o | 0 <= v < |world.views| && 0 <= o < |world.objects|
      ensures IsDrawn(commands, world.views[v], world.objects[o])
    {
      var n := ItemOf(world, v, o);
      ItemDraws(world, n);
      DrawnBy(commands, commands[n], world.views[v], world.objects[o]);
    }
    forall n | 0 <= n < |commands|
      ensures DrawsPair(world, commands[n])
    {
      ItemDraws(world, n);
      PairDrawn(world, commands[n], n / |world.objects|, n % |world.objects|);
    }
  }

  lemma DrawnToo(commands: seq<Command>, others: seq<Command>, view: View, drawn: Object)
    requires IsDrawn(commands, view, drawn) && forall c :: c in commands ==> c in others
    ensures IsDrawn(others, view, drawn)
  {
  }

  lemma DrawnBy(commands: seq<Command>, c: Command, view: View, drawn: Object)
    requires c in commands && Draws(c, view, drawn)
    ensures IsDrawn(commands, view, drawn)
  {
  }

  lemma PairDrawn(world: World, c: Command, v: nat, o: nat)
    requires v < |world.views| && o < |world.objects| && Draws(c, world.views[v], world.objects[o])
    ensures DrawsPair(world, c)
  {
  }

  /** Whether an item fails, and which is the first. */
  lemma FaultsOfItems(world: World)
    ensures AllItems(world).Err? <==>
      |world.objects| > 0 && exists v :: 0 <= v < |world.views| && world.views[v].projection.Err?
    ensures AllItems(world).Err? ==>
      exists v :: 0 <= v < |world.views| && world.views[v].projection.Err?
                  && AllItems(world).error == BadCamera(world.views[v].projection.error)
                  && forall u :: 0 <= u < v ==> world.views[u].projection.Ok?
  {
    hide PrepareItem;
    var count := |world.views| * |world.objects|;
    ItemsGathered(world, count);
    var items := AllItems(world);
    if items.Err? {
      var n :| 0 <= n < count && PrepareItem(world, n) == Err(items.error)
               && forall m :: 0 <= m < n ==> PrepareItem(world, m).Ok?;
      ItemDraws(world, n);
      FirstBadView(world, n);
      assert world.views[n / |world.objects|].projection.Err?;
    } else if |world.objects| > 0 {
      forall v | 0 <= v < |world.views|
        ensures world.views[v].projection.Ok?
      {
        var m := ItemOf(world, v, 0);
        ItemDraws(world, m);
      }
    }
  }

  /**
   * There is no plan exactly when the pairs cannot be counted in a machine word, or there is something to draw and a
   * camera is refused; the reason is that of the first such camera.
   */
  lemma NoPlanExactly(world: World, plan: Result<Plan, Fault>)
    requires IsPrepared(world, plan)
    ensures plan == Err(CountOverflow) <==> |world.views| * |world.objects| > 0xFFFF_FFFF_FFFF_FFFF
    ensures plan.Err? && plan.error != CountOverflow <==>
      && |world.views| * |world.objects| <= 0xFFFF_FFFF_FFFF_FFFF && |world.objects| > 0
      && exists v :: 0 <= v < |world.views| && world.views[v].projection.Err?
    ensures plan.Err? && plan.error != CountOverflow ==>
      exists v :: 0 <= v < |world.views| && world.views[v].projection.Err?
                  && plan.error == BadCamera(world.views[v].projection.error)
                  && forall u :: 0 <= u < v ==> world.views[u].projection.Ok?
  {
    hide AllItems, SortedBy, Batched;
    FaultsOfItems(world);
  }

  lemma FirstBadView(world: World, n: nat)
    requires n < |world.views| * |world.objects| && forall m :: 0 <= m < n ==> PrepareItem(world, m).Ok?
    ensures |world.objects| > 0
    ensures forall u :: 0 <= u < n / |world.objects| && u < |world.views| ==> world.views[u].projection.Ok?
  {
    hide PrepareItem;
    ItemDraws(world, n);
    forall u | 0 <= u < n / |world.objects| && u < |world.views|
      ensures world.views[u].projection.Ok?
    {
      var m := ItemOf(world, u, 0);
      ProductBelow(u + 1, n / |world.objects|, |world.objects|);
      assert (u + 1) * |world.objects| == u * |world.objects| + |world.objects|;
      assert n == (n / |world.objects|) * |world.objects| + n % |world.objects|;
      ItemDraws(world, m);
    }
  }

  /** The numbers commands are compared by, the most significant first. */
  function Numbers(c: Command): seq<nat> {
    [c.view.index, c.view.generation, c.material.slot, c.material.generation, c.material.version,
     c.mesh.slot, c.mesh.generation, c.mesh.version, c.entity.index, c.entity.generation]
  }

  lemma {:induction false} SmallerFirst(a: seq<nat>, b: seq<nat>, p: nat)
    requires |a| == |b| && p < |a| && a[..p] == b[..p] && a[p] < b[p]
    ensures LessKey(a, b)
  {
    if p > 0 {
      assert a[0] == a[..p][0] && b[0] == b[..p][0];
      assert a[1..][..p - 1] == a[..p][1..] && b[1..][..p - 1] == b[..p][1..];
      SmallerFirst(a[1..], b[1..], p - 1);
    }
  }

  /**
   * Commands come in ascending order: no later command has a smaller number where the two first differ, by view first,
   * then material, then mesh, then entity.
   */
  lemma CommandsAscend(world: World, plan: Plan, i: nat, j: nat, p: nat)
    requires IsPrepared(world, Ok(plan)) && i < j < |plan.commands| && p < 10
    requires Numbers(plan.commands[i])[..p] == Numbers(plan.commands[j])[..p]
    ensures Numbers(plan.commands[i])[p] <= Numbers(plan.commands[j])[p]
  {
    hide LessKey, Batched, AllItems;
    var a, b := plan.commands[j], plan.commands[i];
    assert !LessCommand(a, b) by { assert SortedBy(LessCommand, plan.commands); }
    NumbersAreFullKey(a, b);
    if Numbers(a)[p] < Numbers(b)[p] { SmallerFirst(Numbers(a), Numbers(b), p); }
  }

  lemma NumbersAreFullKey(a: Command, b: Command)
    ensures LessCommand(a, b) <==> LessKey(Numbers(a), Numbers(b))
  {
    hide LessCommand, LessKey;
    ComparesFullKeys(a, b);
    assert FullKey(a) == Numbers(a) && FullKey(b) == Numbers(b);
  }

  ghost predicate SameLook(a: Command, b: Command) {
    a.view == b.view && a.material == b.material && a.mesh == b.mesh
  }

  /** The batches follow one another from the first of n commands to the last, and none is empty. */
  ghost predicate Follow(batches: seq<Batch>, n: nat) {
    && (batches == [] <==> n == 0)
    && (batches != [] ==> batches[0].first == 0 && batches[|batches| - 1].first + batches[|batches| - 1].count == n)
    && (forall b :: 0 <= b < |batches| ==> batches[b].count > 0 && batches[b].first + batches[b].count <= n)
    && forall b :: 0 <= b < |batches| - 1 ==> batches[b + 1].first == batches[b].first + batches[b].count
  }

  lemma {:induction false} BatchesFollow(commands: seq<Command>, batches: seq<Batch>)
    requires Batched(commands, batches)
    ensures Follow(batches, |commands|)
  {
    hide BatchKey;
    if batches != [] {
      var last, rest := batches[|batches| - 1], batches[..|batches| - 1];
      assert last.first < |commands| && last.first + last.count == |commands|;
      BatchesFollow(commands[..last.first], rest);
      OneMoreFollows(rest, last, |commands|);
      assert rest + [last] == batches;
    }
  }

  lemma OneMoreFollows(batches: seq<Batch>, last: Batch, n: nat)
    requires Follow(batches, last.first) && last.first < n && last.first + last.count == n
    ensures Follow(batches + [last], n)
  {
    var more := batches + [last];
    assert forall b :: 0 <= b < |batches| ==> more[b] == batches[b];
    assert batches == [] ==> last.first == 0;
  }

  /** All commands of a batch share view, material and mesh. */
  ghost predicate LookAlike(commands: seq<Command>, b: Batch) {
    && b.first + b.count <= |commands|
    && forall k :: b.first <= k < b.first + b.count ==> SameLook(commands[k], commands[b.first])
  }

  /** The batch starts where one of the three changes. */
  ghost predicate LooksNew(commands: seq<Command>, b: Batch) {
    b.first < |commands| && (b.first > 0 ==> !SameLook(commands[b.first - 1], commands[b.first]))
  }

  /** The batches tile the commands, each is a run of one look, and two neighbours differ in theirs. */
  lemma {:induction false} BatchesTile(commands: seq<Command>, batches: seq<Batch>)
    requires Batched(commands, batches)
    ensures Follow(batches, |commands|)
    ensures forall b :: 0 <= b < |batches| ==> LookAlike(commands, batches[b]) && LooksNew(commands, batches[b])
    decreases |batches|
  {
    hide BatchKey, SameLook, Follow, OneKey, StartsAnew, LookAlike, LooksNew;
    BatchesFollow(commands, batches);
    if batches != [] {
      var last, rest := batches[|batches| - 1], batches[..|batches| - 1];
      BatchesTile(commands[..last.first], rest);
      LastBatch(commands, last);
      forall b | 0 <= b < |batches|
        ensures LookAlike(commands, batches[b]) && LooksNew(commands, batches[b])
      {
        if b < |rest| {
          assert rest[b] == batches[b];
          LooksInLonger(commands, last.first, batches[b]);
        }
      }
    }
  }

  lemma LooksInLonger(commands: seq<Command>, n: nat, b: Batch)
    requires n <= |commands| && LookAlike(commands[..n], b) && LooksNew(commands[..n], b)
    ensures LookAlike(commands, b) && LooksNew(commands, b)
  {
    hide SameLook;
    var before := commands[..n];
    assert before[b.first] == commands[b.first];
    if b.first > 0 { assert before[b.first - 1] == commands[b.first - 1]; }
    forall k | b.first <= k < b.first + b.count
      ensures SameLook(commands[k], commands[b.first])
    {
      assert before[k] == commands[k];
    }
  }

  lemma LastBatch(commands: seq<Command>, last: Batch)
    requires last.first + last.count == |commands| && OneKey(commands, last) && StartsAnew(commands, last.first)
    ensures LookAlike(commands, last) && LooksNew(commands, last)
  {
    hide BatchKey, SameLook;
    forall k | last.first <= k < |commands|
      ensures SameLook(commands[k], commands[last.first])
    {
      KeysMeanLooks(commands[k], commands[last.first]);
    }
    if last.first > 0 { KeysMeanLooks(commands[last.first - 1], commands[last.first]); }
  }

  lemma KeysMeanLooks(a: Command, b: Command)
    ensures BatchKey(a) == BatchKey(b) <==> SameLook(a, b)
  {
    var x, y := BatchKey(a), BatchKey(b);
    if x == y {
      assert x[0] == y[0] && x[1] == y[1] && x[2] == y[2] && x[3] == y[3];
      assert x[4] == y[4] && x[5] == y[5] && x[6] == y[6] && x[7] == y[7];
    }
  }

  // -------------------------------------------------------------- snapshots

  /** The row is drawn: its mesh and its material are resident, and the object carries them. */
  ghost predicate Copies(resources: Resources, row: Renderable, o: Object) {
    && o.id == row.entity && o.transform == row.transform
    && row.mesh in resources.meshes && o.mesh == resources.meshes[row.mesh]
    && row.material in resources.materials && o.material == resources.materials[row.material]
  }

  lemma ObjectCopies(resources: Resources, row: Renderable)
    ensures match ObjectOf(resources, row)
            case Some(o) => Copies(resources, row, o)
            case None => row.mesh !in resources.meshes || row.material !in resources.materials
  {
  }

  /**
   * A snapshot has a view for every camera, in order; an object for every row whose mesh and material are both
   * resident, in row order, and for no other; and for every object the use of its mesh and then of its material.
   */
  lemma SnapshotCopies(resources: Resources, cameras: seq<Camera>, rows: seq<Renderable>) returns (from: seq<nat>)
    ensures var snapshot := Extracted(resources, cameras, rows);
      && |snapshot.world.views| == |cameras|
      && (forall i :: 0 <= i < |cameras| ==>
            snapshot.world.views[i].id == cameras[i].entity && snapshot.world.views[i].projection == cameras[i].lens)
      && |from| == |snapshot.world.objects|
      && (forall k :: 0 <= k < |from| ==> from[k] < |rows| && Copies(resources, rows[from[k]], snapshot.world.objects[k]))
      && (forall i, j :: 0 <= i < j < |from| ==> from[i] < from[j])
      && (forall r: nat :: r < |rows| && rows[r].mesh in resources.meshes && rows[r].material in resources.materials ==> r in from)
      && |snapshot.records| == 2 * |from|
      && forall k :: 0 <= k < |from| ==>
           && snapshot.records[2 * k] == snapshot.world.objects[k].mesh
           && snapshot.records[2 * k + 1] == snapshot.world.objects[k].material
  {
    hide ObjectOf, ObjectsOf, Copies;
    from := ObjectsAreResidentRows(resources, rows);
    RecordsInPairs(ObjectsOf(resources, rows));
    forall r: nat | r < |rows|
      ensures match ObjectOf(resources, rows[r])
              case Some(o) => Copies(resources, rows[r], o)
              case None => rows[r].mesh !in resources.meshes || rows[r].material !in resources.materials
    {
      ObjectCopies(resources, rows[r]);
    }
  }

  lemma {:induction false} RecordsInPairs(objects: seq<Object>)
    ensures |RecordsOf(objects)| == 2 * |objects|
    ensures forall k :: 0 <= k < |objects| ==>
              RecordsOf(objects)[2 * k] == objects[k].mesh && RecordsOf(objects)[2 * k + 1] == objects[k].material
  {
    if objects != [] {
      RecordsInPairs(objects[1..]);
      forall k | 0 < k < |objects|
        ensures RecordsOf(objects)[2 * k] == objects[k].mesh && RecordsOf(objects)[2 * k + 1] == objects[k].material
      {
        assert objects[k] == objects[1..][k - 1];
        assert 2 * k - 2 == 2 * (k - 1);
      }
    }
  }

  /** The command draws the row in the camera, with the camera's matrix and the resident mesh and material. */
  ghost predicate DrawsRow(resources: Resources, camera: Camera, row: Renderable, c: Command) {
    && c.view == camera.entity && camera.lens == Ok(c.camera)
    && c.entity == row.entity && c.transform == row.transform
    && row.mesh in resources.meshes && c.mesh == resources.meshes[row.mesh]
    && row.material in resources.materials && c.material == resources.materials[row.material]
  }

  lemma CopyDrawsRow(resources: Resources, camera: Camera, row: Renderable, view: View, o: Object, c: Command)
    requires view.id == camera.entity && view.projection == camera.lens && Copies(resources, row, o)
    ensures Draws(c, view, o) <==> DrawsRow(resources, camera, row, c)
  {
  }

  lemma OneCommand(c: Command, d: Command, view: View, o: Object)
    requires Draws(c, view, o) && Draws(d, view, o)
    ensures c == d
  {
  }

  lemma RowIsDrawn(resources: Resources, camera: Camera, row: Renderable, view: View, o: Object, commands: seq<Command>,
                   c: Command)
    requires view.id == camera.entity && view.projection == camera.lens && Copies(resources, row, o)
    requires IsDrawn(commands, view, o) && DrawsRow(resources, camera, row, c)
    ensures c in commands
  {
    CopyDrawsRow(resources, camera, row, view, o, c);
    var d :| d in commands && Draws(d, view, o);
    OneCommand(c, d, view, o);
  }

  lemma RowIsResident(resources: Resources, camera: Camera, row: Renderable, c: Command)
    requires DrawsRow(resources, camera, row, c)
    ensures row.mesh in resources.meshes && row.material in resources.materials
  {
  }

  /**
   * From the world to the plan: a frame draws exactly the rows whose mesh and material are resident, in every camera,
   * with that camera's matrix and the resources as they were when it was extracted.
   */
  lemma FrameDrawsExactly(resources: Resources, cameras: seq<Camera>, rows: seq<Renderable>, plan: Plan, c: Command)
    requires IsPrepared(Extracted(resources, cameras, rows).world, Ok(plan))
    ensures c in plan.commands <==>
      exists i, r :: 0 <= i < |cameras| && 0 <= r < |rows| && DrawsRow(resources, cameras[i], rows[r], c)
  {
    hide *;
    var world := Extracted(resources, cameras, rows).world;
    var from := SnapshotCopies(resources, cameras, rows);
    PlanDrawsPairs(world, plan);
    if c in plan.commands {
      var v, o := PairOf(world, c);
      CopyDrawsRow(resources, cameras[v], rows[from[o]], world.views[v], world.objects[o], c);
    }
    if i, r :| 0 <= i < |cameras| && 0 <= r < |rows| && DrawsRow(resources, cameras[i], rows[r], c) {
      RowIsResident(resources, cameras[i], rows[r], c);
      var k :| 0 <= k < |from| && from[k] == r;
      RowIsDrawn(resources, cameras[i], rows[r], world.views[i], world.objects[k], plan.commands, c);
    }
  }

  lemma PairOf(world: World, c: Command) returns (v: nat, o: nat)
    requires DrawsPair(world, c)
    ensures v < |world.views| && o < |world.objects| && Draws(c, world.views[v], world.objects[o])
  {
    v, o :| 0 <= v < |world.views| && 0 <= o < |world.objects| && Draws(c, world.views[v], world.objects[o]);
  }
}
