/** The draw commands of a frame, prepared in one go or in chunks, sorted and cut into batches. */
module RenderPlans {
  import opened Wrappers
  import opened Sorting
  import opened ChunkedWork

  datatype Id = Id(index: nat, generation: nat)

  datatype Resource = Resource(slot: nat, generation: nat, version: nat)

  /** A projection is a matrix or the reason the camera is refused for; matrices are only carried around. */
  datatype View = View(id: Id, projection: Result<nat, nat>)

  datatype Object = Object(id: Id, transform: nat, mesh: Resource, material: Resource)

  datatype World = World(views: seq<View>, objects: seq<Object>)

  datatype Command = Command(view: Id, entity: Id, transform: nat, mesh: Resource, material: Resource, camera: nat)

  datatype Batch = Batch(first: nat, count: nat)

  datatype Plan = Plan(commands: seq<Command>, batches: seq<Batch>)

  datatype Fault = CountOverflow | NoChunkSize | BadCamera(reason: nat)

  const MAX_SIZE: nat := 0xFFFF_FFFF_FFFF_FFFF

  // ----------------------------------------------------------- the order

  function BatchKey(c: Command): seq<nat> {
    [c.view.index, c.view.generation, c.material.slot, c.material.generation, c.material.version,
     c.mesh.slot, c.mesh.generation, c.mesh.version]
  }

  function ObjectKey(c: Command): seq<nat> { [c.entity.index, c.entity.generation] }

  predicate LessKey(a: seq<nat>, b: seq<nat>)
    requires |a| == |b|
  {
    a != [] && (a[0] < b[0] || (a[0] == b[0] && LessKey(a[1..], b[1..])))
  }

  predicate LessCommand(l: Command, r: Command) {
    if BatchKey(l) != BatchKey(r) then LessKey(BatchKey(l), BatchKey(r)) else LessKey(ObjectKey(l), ObjectKey(r))
  }

  lemma {:induction false} KeysCompare(a: seq<nat>, b: seq<nat>)
    requires |a| == |b|
    ensures LessKey(a, b) ==> !LessKey(b, a) && a != b
    ensures a != b ==> LessKey(a, b) || LessKey(b, a)
  {
    if a != [] {
      KeysCompare(a[1..], b[1..]);
      assert a == [a[0]] + a[1..] && b == [b[0]] + b[1..];
    }
  }

  lemma {:induction false} KeysChain(a: seq<nat>, b: seq<nat>, c: seq<nat>)
    requires |a| == |b| == |c|
    ensures LessKey(a, b) && LessKey(b, c) ==> LessKey(a, c)
  {
    if a != [] {
      KeysChain(a[1..], b[1..], c[1..]);
    }
  }

  /** Batch key first, object second: both parts of the comparison as one key. */
  function FullKey(c: Command): seq<nat> { BatchKey(c) + ObjectKey(c) }

  lemma {:induction false} KeyPrefix(p: seq<nat>, a: seq<nat>, q: seq<nat>, b: seq<nat>)
    requires |p| == |q| && |a| == |b|
    ensures LessKey(p + a, q + b) <==> if p == q then LessKey(a, b) else LessKey(p, q)
  {
    if p == [] {
      assert p + a == a && q + b == b;
    } else {
      assert (p + a)[1..] == p[1..] + a && (q + b)[1..] == q[1..] + b;
      KeyPrefix(p[1..], a, q[1..], b);
      assert p == [p[0]] + p[1..] && q == [q[0]] + q[1..];
    }
  }

  lemma ComparesFullKeys(l: Command, r: Command)
    ensures LessCommand(l, r) <==> LessKey(FullKey(l), FullKey(r))
  {
    KeyPrefix(BatchKey(l), ObjectKey(l), BatchKey(r), ObjectKey(r));
  }

  /** The comparator is a strict weak order that decides between any two commands of different keys. */
  lemma CommandOrderIsStrict()
    ensures IsStrictOrder(LessCommand)
  {
    forall a, b: Command
      ensures LessCommand(a, b) ==> !LessCommand(b, a)
      ensures !LessCommand(a, a)
    {
      hide *;
      KeyLengths();
      ComparesFullKeys(a, b);
      ComparesFullKeys(b, a);
      ComparesFullKeys(a, a);
      KeysCompare(FullKey(a), FullKey(b));
      KeysCompare(FullKey(a), FullKey(a));
    }
    forall a, b, c: Command
      ensures LessCommand(a, b) && LessCommand(b, c) ==> LessCommand(a, c)
      ensures !LessCommand(b, a) && !LessCommand(c, b) ==> !LessCommand(c, a)
    {
      hide *;
      Chained(a, b, c);
    }
  }

  lemma KeyLengths()
    ensures forall c :: |FullKey(c)| == 10
  {
  }

  lemma Chained(a: Command, b: Command, c: Command)
    ensures LessCommand(a, b) && LessCommand(b, c) ==> LessCommand(a, c)
    ensures !LessCommand(b, a) && !LessCommand(c, b) ==> !LessCommand(c, a)
  {
    hide *;
    KeyLengths();
    ComparesFullKeys(a, b);
    ComparesFullKeys(b, c);
    ComparesFullKeys(a, c);
    ComparesFullKeys(b, a);
    ComparesFullKeys(c, b);
    ComparesFullKeys(c, a);
    var x, y, z := FullKey(a), FullKey(b), FullKey(c);
    KeysCompare(x, y);
    KeysCompare(y, z);
    KeysCompare(x, z);
    KeysChain(x, y, z);
  }

  // ---------------------------------------------------------- the batches

  predicate OneKey(commands: seq<Command>, b: Batch) {
    && b.first + b.count <= |commands|
    && forall k :: b.first <= k < b.first + b.count ==> BatchKey(commands[k]) == BatchKey(commands[b.first])
  }

  predicate StartsAnew(commands: seq<Command>, first: nat) {
    first < |commands| && (first > 0 ==> BatchKey(commands[first - 1]) != BatchKey(commands[first]))
  }

  /** The batches tile the commands, each a run of one key that starts where the key changes. */
  predicate Batched(commands: seq<Command>, batches: seq<Batch>) {
    if batches == [] then commands == []
    else
      var last := batches[|batches| - 1];
      && last.first + last.count == |commands|
      && OneKey(commands, last) && StartsAnew(commands, last.first)
      && Batched(commands[..last.first], batches[..|batches| - 1])
  }

  method Publish(sorted: seq<Command>) returns (plan: Plan)
    ensures plan.commands == sorted && Batched(sorted, plan.batches)
  {
    var batches: seq<Batch> := [];
    for index := 0 to |sorted|
      invariant Batched(sorted[..index], batches)
    {
      if index == 0 || BatchKey(sorted[index - 1]) != BatchKey(sorted[index]) {
        NextBatch(sorted, index, batches);
        batches := batches + [Batch(index, 1)];
      } else {
        LongerBatch(sorted, index, batches);
        var last := batches[|batches| - 1];
        batches := batches[|batches| - 1 := last.(count := last.count + 1)];
      }
    }
    assert sorted[..|sorted|] == sorted;
    plan := Plan(sorted, batches);
  }

  lemma NextBatch(sorted: seq<Command>, index: nat, batches: seq<Batch>)
    requires index < |sorted| && Batched(sorted[..index], batches)
    requires index > 0 ==> BatchKey(sorted[index - 1]) != BatchKey(sorted[index])
    ensures Batched(sorted[..index + 1], batches + [Batch(index, 1)])
  {
    hide BatchKey;
    var after := batches + [Batch(index, 1)];
    assert after[..|after| - 1] == batches;
    assert sorted[..index + 1][..index] == sorted[..index];
  }

  lemma RunGrows(now: seq<Command>, b: Batch)
    requires b.count > 0 && b.first + b.count + 1 == |now|
    requires OneKey(now[..|now| - 1], b) && BatchKey(now[|now| - 2]) == BatchKey(now[|now| - 1])
    ensures OneKey(now, b.(count := b.count + 1))
  {
    var was := now[..|now| - 1];
    forall k | b.first <= k < |now|
      ensures BatchKey(now[k]) == BatchKey(now[b.first])
    {
      var m := if k < |was| then k else k - 1;
      assert BatchKey(was[m]) == BatchKey(was[b.first]);
    }
  }

  lemma LongerBatch(sorted: seq<Command>, index: nat, batches: seq<Batch>)
    requires 0 < index < |sorted| && Batched(sorted[..index], batches) && batches != []
    requires BatchKey(sorted[index - 1]) == BatchKey(sorted[index])
    ensures var last := batches[|batches| - 1];
            Batched(sorted[..index + 1], batches[|batches| - 1 := last.(count := last.count + 1)])
  {
    hide BatchKey, OneKey;
    var last := batches[|batches| - 1];
    var after := batches[|batches| - 1 := last.(count := last.count + 1)];
    var was, now := sorted[..index], sorted[..index + 1];
    assert after[..|after| - 1] == batches[..|batches| - 1];
    assert was[..last.first] == now[..last.first] && now[..index] == was;
    RunGrows(now, last);
  }

  lemma NoStartInside(commands: seq<Command>, b: Batch)
    requires OneKey(commands, b)
    ensures forall k :: b.first < k < b.first + b.count ==> !StartsAnew(commands, k)
  {
    forall k | b.first < k < b.first + b.count
      ensures !StartsAnew(commands, k)
    {
      assert BatchKey(commands[k - 1]) == BatchKey(commands[b.first]);
    }
  }

  /** There is one way to cut commands into batches. */
  lemma {:induction false} BatchingIsUnique(commands: seq<Command>, p: seq<Batch>, q: seq<Batch>)
    requires Batched(commands, p) && Batched(commands, q)
    ensures p == q
  {
    hide BatchKey, OneKey;
    if p != [] {
      var a, b := p[|p| - 1], q[|q| - 1];
      NoStartInside(commands, a);
      NoStartInside(commands, b);
      BatchingIsUnique(commands[..a.first], p[..|p| - 1], q[..|q| - 1]);
      assert p == p[..|p| - 1] + [a] && q == q[..|q| - 1] + [b];
    }
  }

  predicate Holds(b: Batch, k: nat) { b.first <= k < b.first + b.count }

  /** Every command is in a batch, and in no other. */
  lemma {:induction false} OneBatchEach(commands: seq<Command>, batches: seq<Batch>, k: nat) returns (at: nat)
    requires Batched(commands, batches) && k < |commands|
    ensures at < |batches| && Holds(batches[at], k) && OneKey(commands, batches[at])
    ensures forall b :: 0 <= b < |batches| && Holds(batches[b], k) ==> b == at
  {
    hide BatchKey;
    var last, rest := batches[|batches| - 1], batches[..|batches| - 1];
    BatchesInside(commands[..last.first], rest);
    if k >= last.first {
      at := |batches| - 1;
      assert forall b :: 0 <= b < |rest| ==> !Holds(rest[b], k) && rest[b] == batches[b];
    } else {
      at := OneBatchEach(commands[..last.first], rest, k);
      assert forall b :: 0 <= b < |rest| ==> rest[b] == batches[b];
    }
  }

  lemma {:induction false} BatchesInside(commands: seq<Command>, batches: seq<Batch>)
    requires Batched(commands, batches)
    ensures forall b :: 0 <= b < |batches| ==> batches[b].count > 0 && batches[b].first + batches[b].count <= |commands|
  {
    if batches != [] {
      var last, rest := batches[|batches| - 1], batches[..|batches| - 1];
      BatchesInside(commands[..last.first], rest);
      assert forall b :: 0 <= b < |rest| ==> rest[b] == batches[b];
    }
  }

  lemma SmallerKeysFirst(commands: seq<Command>, i: nat, j: nat)
    requires SortedBy(LessCommand, commands) && i < j < |commands|
    ensures BatchKey(commands[i]) == BatchKey(commands[j]) || LessKey(BatchKey(commands[i]), BatchKey(commands[j]))
  {
    KeysCompare(BatchKey(commands[i]), BatchKey(commands[j]));
    assert !LessCommand(commands[j], commands[i]);
  }

  /** In a sorted plan commands with the same key are next to each other: no key has two batches. */
  lemma NoKeyInTwoBatches(commands: seq<Command>, batches: seq<Batch>, i: nat, j: nat)
    requires SortedBy(LessCommand, commands) && Batched(commands, batches)
    requires i < |commands| && j < |commands| && BatchKey(commands[i]) == BatchKey(commands[j])
    ensures exists b :: 0 <= b < |batches| && Holds(batches[b], i) && Holds(batches[b], j)
  {
    if i <= j {
      EqualKeysTogether(commands, batches, i, j);
    } else {
      EqualKeysTogether(commands, batches, j, i);
    }
  }

  lemma {:induction false} EqualKeysTogether(commands: seq<Command>, batches: seq<Batch>, i: nat, j: nat)
    requires SortedBy(LessCommand, commands) && Batched(commands, batches)
    requires i <= j < |commands| && BatchKey(commands[i]) == BatchKey(commands[j])
    ensures exists b :: 0 <= b < |batches| && Holds(batches[b], i) && Holds(batches[b], j)
  {
    hide BatchKey, LessKey, LessCommand, SortedBy;
    var last, rest := batches[|batches| - 1], batches[..|batches| - 1];
    if i >= last.first {
      assert Holds(last, i) && Holds(last, j);
    } else if j >= last.first {
      KeyBetween(commands, i, last.first - 1, j);
      KeyBetween(commands, i, last.first, j);
      assert false;
    } else {
      PrefixSorted(commands, last.first);
      EqualKeysTogether(commands[..last.first], rest, i, j);
      var b :| 0 <= b < |rest| && Holds(rest[b], i) && Holds(rest[b], j);
      assert rest[b] == batches[b];
    }
  }

  lemma PrefixSorted(commands: seq<Command>, n: nat)
    requires SortedBy(LessCommand, commands) && n <= |commands|
    ensures SortedBy(LessCommand, commands[..n])
  {
  }

  lemma KeyBetween(commands: seq<Command>, i: nat, m: nat, j: nat)
    requires SortedBy(LessCommand, commands) && i <= m <= j < |commands| && BatchKey(commands[i]) == BatchKey(commands[j])
    ensures BatchKey(commands[m]) == BatchKey(commands[i])
  {
    if i < m < j {
      SmallerKeysFirst(commands, i, m);
      SmallerKeysFirst(commands, m, j);
      KeysCompare(BatchKey(commands[i]), BatchKey(commands[m]));
    }
  }

  // ------------------------------------------------------ the preparation

  lemma QuotientDecides(a: nat, b: nat, limit: nat)
    requires b > 0
    ensures a > limit / b <==> a * b > limit
  {
    var q := limit / b;
    assert q * b <= limit < (q + 1) * b by {
      assert limit == q * b + limit % b;
      assert (q + 1) * b == q * b + b;
    }
    if a > q {
      ProductBelow(q + 1, a, b);
    } else {
      ProductBelow(a, q, b);
    }
  }

  /** How many commands there are, if a machine word can hold it. */
  function ItemCount(world: World): (count: Option<nat>)
    ensures count == if |world.views| * |world.objects| > MAX_SIZE then None else Some(|world.views| * |world.objects|)
  {
    var views, objects := |world.views|, |world.objects|;
    if objects > 0 then
      QuotientDecides(views, objects, MAX_SIZE);
      if views > MAX_SIZE / objects then None else Some(views * objects)
    else Some(0)
  }

  /** The command of an item: its view and its object, or the reason the view's camera is refused for. */
  function PrepareItem(world: World, index: nat): Result<Command, Fault>
    requires index < |world.views| * |world.objects|
  {
    ItemInRange(world, index);
    var view, obj := world.views[index / |world.objects|], world.objects[index % |world.objects|];
    match view.projection
    case Err(reason) => Err(BadCamera(reason))
    case Ok(matrix) => Ok(Command(view.id, obj.id, obj.transform, obj.mesh, obj.material, matrix))
  }

  lemma ItemInRange(world: World, index: nat)
    requires index < |world.views| * |world.objects|
    ensures |world.objects| > 0 && index / |world.objects| < |world.views|
  {
    var v, o := |world.views|, |world.objects|;
    NoProduct(v, o);
    QuotientDecides(v, o, index);
  }

  lemma NoProduct(a: nat, b: nat)
    ensures b == 0 ==> a * b == 0
  {
  }

  /** The items as pieces of work. */
  ghost function Items(world: World): nat -> Result<seq<Command>, Fault> {
    (i: nat) =>
      if i >= |world.views| * |world.objects| then Ok([])
      else match PrepareItem(world, i) { case Err(e) => Err(e) case Ok(c) => Ok([c]) }
  }

  /** All commands in item order, or the first reason. */
  ghost function AllItems(world: World): Result<seq<Command>, Fault> {
    Gather(Items(world), 0, |world.views| * |world.objects|)
  }

  /** What preparing a world has to deliver: all its commands, sorted and batched, or the first fault. */
  ghost predicate IsPrepared(world: World, plan: Result<Plan, Fault>) {
    if ItemCount(world).None? then plan == Err(CountOverflow)
    else match AllItems(world)
      case Err(e) => plan == Err(e)
      case Ok(commands) =>
        && plan.Ok?
        && SortedBy(LessCommand, plan.value.commands) && multiset(plan.value.commands) == multiset(commands)
        && Batched(plan.value.commands, plan.value.batches)
  }

  method PrepareItems(world: World, lo: nat, hi: nat) returns (items: Result<seq<Command>, Fault>)
    requires lo <= hi <= |world.views| * |world.objects|
    ensures items == Gather(Items(world), lo, hi)
  {
    var commands: seq<Command> := [];
    for index := lo to hi
      invariant Gather(Items(world), lo, index) == Ok(commands)
    {
      GatherOneMore(Items(world), lo, index);
      var command := PrepareItem(world, index);
      if command.Err? {
        GatherStops(Items(world), lo, index + 1, hi);
        return Err(command.error);
      }
      commands := commands + [command.value];
    }
    items := Ok(commands);
  }

  method SortAndPublish(commands: seq<Command>) returns (plan: Plan)
    ensures SortedBy(LessCommand, plan.commands) && multiset(plan.commands) == multiset(commands)
    ensures Batched(plan.commands, plan.batches)
  {
    CommandOrderIsStrict();
    var sorted := Sort(LessCommand, commands);
    plan := Publish(sorted);
  }

  method Prepare(world: World) returns (plan: Result<Plan, Fault>)
    ensures IsPrepared(world, plan)
  {
    var count := ItemCount(world);
    if count.None? {
      return Err(CountOverflow);
    }
    var items := PrepareItems(world, 0, count.value);
    if items.Err? {
      return Err(items.error);
    }
    var published := SortAndPublish(items.value);
    plan := Ok(published);
  }

  // ----------------------------------------------------------- in chunks

  /** Any order in which the workers get to their chunks. */
  ghost predicate IsSchedule(order: seq<nat>, n: nat) {
    && (forall k :: 0 <= k < |order| ==> order[k] < n)
    && forall c: nat :: c < n ==> c in order
  }

  /** What the chunk holds once its worker is done with it. */
  ghost function ChunkResult(world: World, size: nat, k: nat): Result<seq<Command>, Fault>
    requires size > 0 && k < ChunkCount(|world.views| * |world.objects|, size)
  {
    ChunksTile(|world.views| * |world.objects|, size, k);
    var count := |world.views| * |world.objects|;
    Gather(Items(world), ChunkStart(count, size, k), ChunkStart(count, size, k + 1))
  }

  method RunChunks(world: World, size: nat, order: seq<nat>) returns (chunks: array<Result<seq<Command>, Fault>>)
    requires size > 0 && IsSchedule(order, ChunkCount(|world.views| * |world.objects|, size))
    ensures HoldsChunks(world, size, chunks[..])
  {
    var count := |world.views| * |world.objects|;
    chunks := new Result<seq<Command>, Fault>[ChunkCount(count, size)](_ => Ok([]));
    for k := 0 to |order|
      invariant forall j :: 0 <= j < k ==> chunks[order[j]] == ChunkResult(world, size, order[j])
    {
      var index := order[k];
      ChunksTile(count, size, index);
      var begin := index * size;
      var end := begin + if size <= count - begin then size else count - begin;
      var items := PrepareItems(world, begin, end);
      chunks[index] := items;
    }
    forall c | 0 <= c < chunks.Length
      ensures chunks[c] == ChunkResult(world, size, c)
    {
      assert c in order;
    }
  }

  /** Preparing in chunks: every worker fills its own chunk, the join looks for a fault, then merges in chunk order. */
  method SchedulePrepare(world: World, size: nat, order: seq<nat>) returns (plan: Result<Plan, Fault>)
    requires size > 0 ==> IsSchedule(order, ChunkCount(|world.views| * |world.objects|, size))
    ensures if size == 0 then plan == Err(NoChunkSize) else IsPrepared(world, plan)
  {
    if size == 0 {
      return Err(NoChunkSize);
    }
    var count := ItemCount(world);
    if count.None? {
      return Err(CountOverflow);
    }
    if count.value <= size {
      plan := Prepare(world);
      return;
    }
    var chunks := RunChunks(world, size, order);
    var items := MergeChunks(world, size, chunks[..]);
    if items.Err? {
      return Err(items.error);
    }
    var published := SortAndPublish(items.value);
    plan := Ok(published);
  }

  ghost predicate HoldsChunks(world: World, size: nat, chunks: seq<Result<seq<Command>, Fault>>) {
    size > 0 && |chunks| == ChunkCount(|world.views| * |world.objects|, size) &&
    forall c :: 0 <= c < |chunks| ==> chunks[c] == ChunkResult(world, size, c)
  }

  /** What the first c chunks amount to. */
  ghost function Merged(world: World, size: nat, c: nat): Result<seq<Command>, Fault> {
    Gather(Items(world), 0, ChunkStart(|world.views| * |world.objects|, size, c))
  }

  lemma MergeOneMore(world: World, size: nat, c: nat, chunks: seq<Result<seq<Command>, Fault>>)
    requires HoldsChunks(world, size, chunks) && c < |chunks|
    ensures Merged(world, size, c + 1) == Joined(Merged(world, size, c), chunks[c])
  {
    var count := |world.views| * |world.objects|;
    ChunksTile(count, size, c);
    GatherSplits(Items(world), 0, ChunkStart(count, size, c), ChunkStart(count, size, c + 1));
  }

  lemma MergedAll(world: World, size: nat, c: nat)
    requires size > 0
    ensures Merged(world, size, 0) == Ok([])
    ensures Merged(world, size, ChunkCount(|world.views| * |world.objects|, size)) == AllItems(world)
    ensures Merged(world, size, c).Err? ==> AllItems(world) == Merged(world, size, c)
  {
    var count := |world.views| * |world.objects|;
    ChunksEnd(count, size);
    if Merged(world, size, c).Err? {
      GatherStops(Items(world), 0, ChunkStart(count, size, c), count);
    }
  }

  /** The join: the fault of the first faulty chunk, else the chunks in order. */
  method MergeChunks(world: World, size: nat, chunks: seq<Result<seq<Command>, Fault>>) returns (items: Result<seq<Command>, Fault>)
    requires HoldsChunks(world, size, chunks)
    ensures items == AllItems(world)
  {
    hide HoldsChunks, Merged, AllItems;
    AsManyChunks(world, size, chunks);
    MergedAll(world, size, 0);
    for c := 0 to |chunks|
      invariant (forall j :: 0 <= j < c ==> chunks[j].Ok?) && Merged(world, size, c).Ok?
    {
      MergeOneMore(world, size, c, chunks);
      if chunks[c].Err? {
        MergedAll(world, size, c + 1);
        return Err(chunks[c].error);
      }
    }
    var commands: seq<Command> := [];
    for c := 0 to |chunks|
      invariant Merged(world, size, c) == Ok(commands)
    {
      MergeOneMore(world, size, c, chunks);
      commands := commands + chunks[c].value;
    }
    items := Ok(commands);
  }

  lemma AsManyChunks(world: World, size: nat, chunks: seq<Result<seq<Command>, Fault>>)
    requires HoldsChunks(world, size, chunks)
    ensures size > 0 && |chunks| == ChunkCount(|world.views| * |world.objects|, size)
  {
  }

  // ---------------------------------------------------------- one plan only

  predicate DistinctIds(world: World) {
    && (forall i, j :: 0 <= i < j < |world.views| ==> world.views[i].id != world.views[j].id)
    && forall i, j :: 0 <= i < j < |world.objects| ==> world.objects[i].id != world.objects[j].id
  }

  /** A command of the list comes from an item. */
  lemma {:induction false} CommandOrigin(world: World, hi: nat, commands: seq<Command>, c: Command) returns (i: nat)
    requires hi <= |world.views| * |world.objects| && Gather(Items(world), 0, hi) == Ok(commands) && c in commands
    ensures i < hi && PrepareItem(world, i) == Ok(c)
  {
    if hi == 0 {
      assert false;
    } else {
      GatherOneMore(Items(world), 0, hi - 1);
      var shorter := Gather(Items(world), 0, hi - 1).value;
      if c in shorter {
        i := CommandOrigin(world, hi - 1, shorter, c);
      } else {
        i := hi - 1;
      }
    }
  }

  lemma ItemParts(world: World, i: nat, c: Command)
    requires i < |world.views| * |world.objects| && PrepareItem(world, i) == Ok(c)
    ensures |world.objects| > 0 && i / |world.objects| < |world.views|
    ensures c.view == world.views[i / |world.objects|].id && c.entity == world.objects[i % |world.objects|].id
  {
    ItemInRange(world, i);
  }

  lemma SameCell(i: nat, j: nat, n: nat)
    requires n > 0 && i / n == j / n && i % n == j % n
    ensures i == j
  {
    assert i == (i / n) * n + i % n && j == (j / n) * n + j % n;
  }

  /** With distinct identities, commands of the same view and object are the same command. */
  lemma SameIdsSameCommand(world: World, i: nat, j: nat, a: Command, b: Command)
    requires DistinctIds(world) && i < |world.views| * |world.objects| && j < |world.views| * |world.objects|
    requires PrepareItem(world, i) == Ok(a) && PrepareItem(world, j) == Ok(b)
    requires a.view == b.view && a.entity == b.entity
    ensures a == b
  {
    hide *;
    ItemParts(world, i, a);
    ItemParts(world, j, b);
    var n := |world.objects|;
    Positions(i, n);
    Positions(j, n);
    SameIdsSamePlace(world, i / n, j / n, i % n, j % n);
    SameCell(i, j, n);
  }

  lemma Positions(i: nat, n: nat)
    requires n > 0
    ensures 0 <= i / n && 0 <= i % n < n
  {
  }

  lemma SameIdsSamePlace(world: World, v: nat, w: nat, x: nat, y: nat)
    requires DistinctIds(world) && v < |world.views| && w < |world.views| && x < |world.objects| && y < |world.objects|
    requires world.views[v].id == world.views[w].id && world.objects[x].id == world.objects[y].id
    ensures v == w && x == y
  {
  }

  lemma ItemsAreDecided(world: World, commands: seq<Command>)
    requires DistinctIds(world) && AllItems(world) == Ok(commands)
    ensures DecidedBy(LessCommand, commands)
  {
    forall a, b | a in commands && b in commands && a != b
      ensures LessCommand(a, b) || LessCommand(b, a)
    {
      var i := CommandOrigin(world, |world.views| * |world.objects|, commands, a);
      var j := CommandOrigin(world, |world.views| * |world.objects|, commands, b);
      if a.view == b.view && a.entity == b.entity {
        SameIdsSameCommand(world, i, j, a, b);
      }
      DifferentIdsCompare(a, b);
    }
  }

  lemma DifferentIdsCompare(a: Command, b: Command)
    requires a.view != b.view || a.entity != b.entity
    ensures LessCommand(a, b) || LessCommand(b, a)
  {
    var p, q := BatchKey(a), BatchKey(b);
    assert p == q ==> p[0] == q[0] && p[1] == q[1];
    var x, y := ObjectKey(a), ObjectKey(b);
    assert x == y ==> x[0] == y[0] && x[1] == y[1];
    KeysCompare(p, q);
    KeysCompare(x, y);
  }

  /** With distinct view and object identities a world has exactly one plan, however it is prepared. */
  lemma PlanIsDetermined(world: World, p: Result<Plan, Fault>, q: Result<Plan, Fault>)
    requires DistinctIds(world) && IsPrepared(world, p) && IsPrepared(world, q)
    ensures p == q
  {
    if ItemCount(world).Some? && AllItems(world).Ok? {
      var commands := AllItems(world).value;
      var x, y := p.value.commands, q.value.commands;
      ItemsAreDecided(world, commands);
      SameMembers(commands, x);
      CommandOrderIsStrict();
      SortedIsUnique(LessCommand, x, y);
      BatchingIsUnique(x, p.value.batches, q.value.batches);
    }
  }
}
