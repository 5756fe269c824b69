/** What a run of the systems changes structurally (ecs/world.cpp, PublishSystemCommands): the parallel run and the
    sequential one commit the same commands in the same order, though their buffers are submitted in different orders. */
module RunCommits {
  import opened Wrappers
  import opened Reordering
  import opened SystemGraphSpec
  import opened SystemRuns
  import R = ScopedRuns
  import opened Sorting
  import opened StructuralCommands
  import opened StructuralEffects
  import opened DeferredStructure

  /** What a system has recorded: its own commands, and the batches that its producers have submitted. */
  datatype Recording = Recording(own: seq<Command>, submitted: seq<Batch>)

  /** The systems that may record, in the order of their invocations, and how a recording is read off a system's
      locals. */
  datatype Recorder<!Val> = Recorder(invocations: seq<nat>, orderOf: nat -> nat, read: (nat, Option<Val>) -> Recording)

  function Recorded<Val>(r: Recorder<Val>, store: map<Place, Val>, system: nat): Recording {
    r.read(system, if LOCAL(system) in store then Some(store[LOCAL(system)]) else None)
  }

  function OwnLists<Val>(r: Recorder<Val>, store: map<Place, Val>): seq<SystemCommands> {
    seq(|r.invocations|, k requires 0 <= k < |r.invocations| =>
      SystemCommands(r.orderOf(r.invocations[k]), Recorded(r, store, r.invocations[k]).own))
  }

  /** The producers' batches of the first n invocations. */
  function SubmittedBy<Val>(r: Recorder<Val>, store: map<Place, Val>, n: nat): seq<Batch>
    requires n <= |r.invocations|
  {
    if n == 0 then [] else SubmittedBy(r, store, n - 1) + Recorded(r, store, r.invocations[n - 1]).submitted
  }

  /** The batches waiting for commit after a run that ended with the given store. The producers' batches come in the
      order in which they happened to be submitted. */
  ghost predicate Publishes<Val>(r: Recorder<Val>, store: map<Place, Val>, earlier: seq<Batch>, submitted: seq<Batch>,
                                 from: nat, batches: seq<Batch>)
  {
    && multiset(StripAll(submitted)) == multiset(StripAll(SubmittedBy(r, store, |r.invocations|)))
    && AllExternal(earlier) && KeysSound(earlier, submitted, OwnLists(r, store))
    && batches == earlier + Numbered(OwnBatches(OwnLists(r, store)) + submitted, from)
  }

  lemma StripConcat(a: seq<Batch>, b: seq<Batch>)
    ensures StripAll(a + b) == StripAll(a) + StripAll(b)
  {
  }

  lemma StripNumbered(batches: seq<Batch>, from: nat)
    ensures StripAll(Numbered(batches, from)) == StripAll(batches)
  {
  }

  lemma PublishedKeys<Val>(r: Recorder<Val>, store: map<Place, Val>, earlier: seq<Batch>, submitted: seq<Batch>,
                           from: nat, batches: seq<Batch>)
    requires Publishes(r, store, earlier, submitted, from, batches)
    ensures UniqueKeys(batches)
    ensures StripAll(batches) == StripAll(earlier) + (StripAll(OwnBatches(OwnLists(r, store))) + StripAll(submitted))
  {
    var own := OwnLists(r, store);
    KeysAfterPublish(earlier, submitted, own, from);
    UniqueParts(batches, []);
    hide KeysSound, OwnLists, OwnBatches, StripAll, UniqueKeys, AllExternal, SubmittedBy;
    StripConcat(earlier, Numbered(OwnBatches(own) + submitted, from));
    StripNumbered(OwnBatches(own) + submitted, from);
    StripConcat(OwnBatches(own), submitted);
  }

  /** Two runs that end with the same store publish the same batches, up to the order of submission. */
  lemma SameStoreSameBatches<Val>(r: Recorder<Val>, store: map<Place, Val>, earlier: seq<Batch>, p: seq<Batch>, j: nat,
                                  batchesP: seq<Batch>, q: seq<Batch>, k: nat, batchesQ: seq<Batch>)
    requires Publishes(r, store, earlier, p, j, batchesP) && Publishes(r, store, earlier, q, k, batchesQ)
    ensures UniqueKeys(batchesP) && multiset(StripAll(batchesP)) == multiset(StripAll(batchesQ))
  {
    PublishedKeys(r, store, earlier, p, j, batchesP);
    PublishedKeys(r, store, earlier, q, k, batchesQ);
    hide KeysSound, OwnLists, OwnBatches, StripAll, UniqueKeys, AllExternal, SubmittedBy;
  }

  /**
   * The parallel run and the sequential one in canonical order commit the same commands in the same order when neither
   * commit fails, and a failing one applies a prefix of them, in whatever order the producers' buffers are submitted.
   */
  lemma ParallelRunCommitsTheSame<Val(!new)>(
      plan: R.Plan, reach: nat -> Footprint<Place>, lengths: nat -> nat, steps: seq<MicroStep>,
      act: (MicroStep, map<Place, Val>) -> map<Place, Val>, store: map<Place, Val>,
      r: Recorder<Val>, earlier: seq<Batch>, commands: seq<Command>, log: seq<Command>,
      p: seq<Batch>, fromP: nat, batchesP: seq<Batch>, sortedP: seq<Batch>, j: nat, longerP: seq<Command>,
      leftP: seq<Command>,
      q: seq<Batch>, fromQ: nat, batchesQ: seq<Batch>, sortedQ: seq<Batch>, k: nat, longerQ: seq<Command>,
      leftQ: seq<Command>)
    requires IsExecutionGraph(plan.systems, plan.graph) && R.AllStayConfined(plan, reach)
    requires AllConfined(act, Reach(reach)) && R.IsParallelRun(plan, lengths, steps)
    requires Publishes(r, Run(act, steps, store), earlier, p, fromP, batchesP)
    requires Publishes(r, Run(act, Sequential(plan.graph.order, lengths), store), earlier, q, fromQ, batchesQ)
    requires AppliedInOrder(commands, batchesP, sortedP, j, log, longerP, leftP)
    requires AppliedInOrder(commands, batchesQ, sortedQ, k, log, longerQ, leftQ)
    ensures if j <= k then longerP <= longerQ else longerQ <= longerP
    ensures j == k ==> longerP == longerQ && leftP == leftQ
  {
    R.ParallelRunIsSequential(plan, reach, lengths, steps, act, store);
    hide *;
    SameEnd(reach, act, Sequential(plan.graph.order, lengths), steps, store);
    SameStoreSameBatches(r, Run(act, steps, store), earlier, p, fromP, batchesP, q, fromQ, batchesQ);
    SubmissionOrderIsIrrelevant(commands, batchesP, batchesQ, sortedP, sortedQ, j, k, log, longerP, longerQ, leftP, leftQ);
  }

  /**
   * From the same hierarchy the commits of both runs answer the same, keep the same rest, and leave the same hierarchy
   * with the same handles alive.
   */
  lemma ParallelRunLeavesTheSame<Val(!new)>(
      plan: R.Plan, reach: nat -> Footprint<Place>, lengths: nat -> nat, steps: seq<MicroStep>,
      act: (MicroStep, map<Place, Val>) -> map<Place, Val>, store: map<Place, Val>,
      r: Recorder<Val>, earlier: seq<Batch>, commands: seq<Command>, log: seq<Command>,
      p: seq<Batch>, fromP: nat, batchesP: seq<Batch>, sortedP: seq<Batch>, j: nat, longerP: seq<Command>,
      leftP: seq<Command>,
      q: seq<Batch>, fromQ: nat, batchesQ: seq<Batch>, sortedQ: seq<Batch>, k: nat, longerQ: seq<Command>,
      leftQ: seq<Command>, worldId: nat, f: H.Forest, g: H.Forest, h: H.Forest)
    requires IsExecutionGraph(plan.systems, plan.graph) && R.AllStayConfined(plan, reach)
    requires AllConfined(act, Reach(reach)) && R.IsParallelRun(plan, lengths, steps)
    requires Publishes(r, Run(act, steps, store), earlier, p, fromP, batchesP)
    requires Publishes(r, Run(act, Sequential(plan.graph.order, lengths), store), earlier, q, fromQ, batchesQ)
    requires AppliedInOrder(commands, batchesP, sortedP, j, log, longerP, leftP)
    requires AppliedInOrder(commands, batchesQ, sortedQ, k, log, longerQ, leftQ)
    requires DoesAll(worldId, f, longerP[|log|..], g) && DoesAll(worldId, f, longerQ[|log|..], h)
    requires j < |commands + Flatten(sortedP)| ==> Fails(g, (commands + Flatten(sortedP))[j])
    requires k < |commands + Flatten(sortedQ)| ==> Fails(h, (commands + Flatten(sortedQ))[k])
    ensures j == k && longerP == longerQ && leftP == leftQ && g == h
  {
    R.ParallelRunIsSequential(plan, reach, lengths, steps, act, store);
    hide *;
    SameEnd(reach, act, Sequential(plan.graph.order, lengths), steps, store);
    SameStoreSameBatches(r, Run(act, steps, store), earlier, p, fromP, batchesP, q, fromQ, batchesQ);
    CommitsLeaveTheSame(commands, batchesP, batchesQ, sortedP, sortedQ, j, k, log, longerP, longerQ, leftP, leftQ,
                        worldId, f, g, h);
  }

  lemma SameEnd<Val(!new)>(reach: nat -> Footprint<Place>, act: (MicroStep, map<Place, Val>) -> map<Place, Val>,
                           p: seq<MicroStep>, q: seq<MicroStep>, store: map<Place, Val>)
    requires SameRun(reach, act, p, q, store)
    ensures Run(act, q, store) == Run(act, p, store)
  {
  }
}
