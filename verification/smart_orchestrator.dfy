/**
 * The AI pipeline's `SmartOrchestrator`: a registry of processors keyed by class name, and the
 * collection of their outcomes once every processor has run on a document. Running the
 * processors is a parameter; the scheduling of the tasks is not modelled.
 */
module SmartOrchestrator {
  import opened NeuralMerger

  /** A processor object: the name of its class, and which instance of that class it is. */
  datatype Processor = Processor(className: string, instance: nat)

  /** What `process_document` returns: the merger's page map, or, without a merger, every
      successful outcome under its index. */
  datatype DocumentResult = Merged(pages: PageMap) | ByIndex(outcomes: map<int, PageMap>)

  ghost predicate Distinct<T>(s: seq<T>) {
    forall i, j :: 0 <= i < j < |s| ==> s[i] != s[j]
  }

  /** The class names among the processors registered so far. */
  ghost function ClassNames(registered: seq<Processor>): set<string> {
    set p | p in registered :: p.className
  }

  /** A sequence without repetitions has as many elements as its set. */
  lemma {:induction false} DistinctCard<T>(s: seq<T>)
    requires Distinct(s)
    ensures |set x | x in s| == |s|
  {
    if s != [] {
      var n := |s| - 1;
      DistinctCard(s[..n]);
      assert (set x | x in s) == (set x | x in s[..n]) + {s[n]};
      assert s[n] !in (set x | x in s[..n]);
    }
  }

  class Orchestrator {
    /** `self.processors`: class name to the processor last registered under it. */
    var processors: map<string, Processor>
    /** The keys of `self.processors` in insertion order, which is the order of `values()`. */
    var order: seq<string>
    var neuralMerger: Merger?
    var qualityScorer: Scorer?
    /** Every processor registered so far, in order. */
    ghost var registered: seq<Processor>

    ghost predicate Valid()
      reads this
    {
      && Distinct(order)
      && (forall name :: name in processors <==> name in order)
      && (forall name :: name in processors ==> processors[name].className == name)
      && processors.Keys == ClassNames(registered)
    }

    /** A new orchestrator has no processors, no merger and no scorer. */
    constructor ()
      ensures Valid()
      ensures processors == map[] && order == [] && registered == []
      ensures neuralMerger == null && qualityScorer == null
    {
      processors := map[];
      order := [];
      neuralMerger := null;
      qualityScorer := null;
      registered := [];
    }

    /** The number of processors is the number of distinct class names registered. */
    lemma ProcessorCount()
      requires Valid()
      ensures |order| == |processors| == |ClassNames(registered)|
    {
      DistinctCard(order);
      assert (set x | x in order) == processors.Keys;
    }

    /** `register_processor`: store the processor under its class name, replacing an earlier
        processor of the same class in place. */
    method RegisterProcessor(p: Processor)
      requires Valid()
      modifies this
      ensures Valid()
      ensures processors == old(processors)[p.className := p]
      ensures order == if p.className in old(processors) then old(order) else old(order) + [p.className]
      ensures registered == old(registered) + [p]
      ensures neuralMerger == old(neuralMerger) && qualityScorer == old(qualityScorer)
    {
      if p.className !in processors {
        order := order + [p.className];
      }
      processors := processors[p.className := p];
      registered := registered + [p];
      assert ClassNames(registered) == ClassNames(old(registered)) + {p.className};
    }

    /** The processing task list of `process_document`: one per registered processor, in insertion order. */
    method Tasks() returns (tasks: seq<Processor>)
      requires Valid()
      ensures |tasks| == |order|
      ensures forall i :: 0 <= i < |tasks| ==> tasks[i] == processors[order[i]]
    {
      tasks := [];
      for i := 0 to |order|
        invariant |tasks| == i
        invariant forall j :: 0 <= j < i ==> tasks[j] == processors[order[j]]
      {
        tasks := tasks + [processors[order[i]]];
      }
    }

    /** `process_document`: every processor runs on the file, and the outcomes, failures
        included, come back in task order; the merger folds them, or else the successful ones
        are kept under their index. */
    method ProcessDocument(filePath: string, run: (Processor, string) -> Outcome<PageMap>)
      returns (r: DocumentResult)
      requires Valid()
      ensures neuralMerger != null ==>
        r == Merged(MergeAll(Gathered(order, processors, filePath, run)))
      ensures neuralMerger == null ==> r.ByIndex?
      ensures neuralMerger == null ==> forall i :: i in r.outcomes <==>
        0 <= i < |order| && run(processors[order[i]], filePath).Success?
      ensures neuralMerger == null ==> forall i :: i in r.outcomes ==>
        0 <= i < |order| && r.outcomes[i] == run(processors[order[i]], filePath).value
    {
      var tasks := Tasks();
      var gathered := seq(|tasks|, i requires 0 <= i < |tasks| => run(tasks[i], filePath));
      if neuralMerger != null {
        var merged := neuralMerger.MergeResults(gathered);
        assert gathered == Gathered(order, processors, filePath, run);
        r := Merged(merged);
      } else {
        var byIndex := CollectByIndex(gathered);
        r := ByIndex(byIndex);
      }
    }
  }

  /** What `asyncio.gather` returns: the outcome of each processor, in task order. */
  function Gathered(order: seq<string>, processors: map<string, Processor>, filePath: string,
                    run: (Processor, string) -> Outcome<PageMap>): seq<Outcome<PageMap>>
    requires forall name :: name in order ==> name in processors
  {
    seq(|order|, i requires 0 <= i < |order| => run(processors[order[i]], filePath))
  }

  /** The basic merge of `process_document`: each successful outcome under its index. */
  method CollectByIndex<T>(outcomes: seq<Outcome<T>>) returns (results: map<int, T>)
    ensures forall i :: i in results <==> 0 <= i < |outcomes| && outcomes[i].Success?
    ensures forall i :: i in results ==> 0 <= i < |outcomes| && results[i] == outcomes[i].value
  {
    results := map[];
    for idx := 0 to |outcomes|
      invariant forall i :: i in results <==> 0 <= i < idx && outcomes[i].Success?
      invariant forall i :: i in results ==> 0 <= i < idx && results[i] == outcomes[i].value
    {
      var result := outcomes[idx];
      if result.Success? {
        results := results[idx := result.value];
      }
    }
  }
}
