/**
 Signatures of the partitions of a compiled graph (vllm/env_override.py): what each
 partition receives, returns and frees, decided by one pass from the last
 partition to the first.

 `alias` maps a mutated buffer to the buffer it stands for and `unstored` lists
 the buffers without storage; `known` holds the names that have a node.
 */
module PartitionSignature {
  import L = Liveness
  import opened Wrappers

  type Name = string

  datatype Node = Node(outputs: set<Name>, loads: set<Name>, stores: set<Name>, lastUsage: set<Name>)

  type Partition = seq<Node>

  datatype Graph = Graph(
    outputs: set<Name>, known: set<Name>, constants: set<Name>, alias: map<Name, Name>, unstored: set<Name>)

  datatype Signature = Signature(
    inputs: set<Name>, freed: set<Name>, outputs: set<Name>, constants: set<Name>, skipCudagraph: bool)

  // ----- one partition -----

  function Outputs(p: Partition): set<Name> {
    if p == [] then {} else Outputs(p[..|p| - 1]) + p[|p| - 1].outputs
  }

  function Accesses(p: Partition): set<Name> {
    if p == [] then {} else Accesses(p[..|p| - 1]) + p[|p| - 1].loads + p[|p| - 1].stores
  }

  function Frees(p: Partition): set<Name> {
    if p == [] then {} else Frees(p[..|p| - 1]) + p[|p| - 1].lastUsage
  }

  function RealName(g: Graph, n: Name): Name {
    if n in g.alias then g.alias[n] else n
  }

  function Renamed(g: Graph, names: set<Name>): set<Name> {
    set n | n in names :: RealName(g, n)
  }

  /** Everything the partition reads, writes or frees without producing it. */
  function Inputs(g: Graph, p: Partition): set<Name> {
    Renamed(g, set n | n in Accesses(p) && n !in g.unstored && n !in Outputs(p))
    + (set n | n in Frees(p) && n !in Outputs(p) && n in g.known)
  }

  /** The produced names somebody still needs, and every input the partition does not free. */
  function Returned(g: Graph, p: Partition, unmet: set<Name>): set<Name> {
    Renamed(g, Outputs(p) * unmet + (set n | n in Inputs(g, p) && n in g.known && n !in Frees(p)))
  }

  function SignatureOf(g: Graph, p: Partition, skip: bool, unmet: set<Name>): Signature {
    var inputs := Inputs(g, p);
    Signature(inputs * g.known, inputs * g.known * Frees(p), Returned(g, p, unmet) - g.unstored,
              inputs * g.constants, skip)
  }

  // ----- the pass over the partitions -----

  /** What is needed when partition k starts. */
  function NeedAt(g: Graph, ps: seq<Partition>, k: nat): set<Name>
    requires k <= |ps|
    decreases |ps| - k
  {
    if k == |ps| then g.outputs
    else Inputs(g, ps[k]) + (NeedAt(g, ps, k + 1) - Returned(g, ps[k], NeedAt(g, ps, k + 1)))
  }

  function SigAt(g: Graph, ps: seq<Partition>, skips: seq<bool>, k: nat): Signature
    requires k < |ps| == |skips|
  {
    SignatureOf(g, ps[k], skips[k], NeedAt(g, ps, k + 1))
  }

  /** The signatures of partitions k and later. */
  function SigsFrom(g: Graph, ps: seq<Partition>, skips: seq<bool>, k: nat): (r: seq<Signature>)
    requires k <= |ps| == |skips|
    ensures |r| == |ps| - k
    decreases |ps| - k
  {
    if k == |ps| then [] else [SigAt(g, ps, skips, k)] + SigsFrom(g, ps, skips, k + 1)
  }

  lemma {:induction false} SigsFromAt(g: Graph, ps: seq<Partition>, skips: seq<bool>, k: nat, i: nat)
    requires k <= i < |ps| == |skips|
    ensures SigsFrom(g, ps, skips, k)[i - k] == SigAt(g, ps, skips, i)
    decreases |ps| - k
  {
    if k < i {
      SigsFromAt(g, ps, skips, k + 1, i);
    }
  }

  /** Every name partition k returns has a node; otherwise the lookup fails. */
  predicate LookupOk(g: Graph, ps: seq<Partition>, skips: seq<bool>, k: nat)
    requires k < |ps| == |skips|
  {
    SigAt(g, ps, skips, k).outputs <= g.known
  }

  predicate LookupsOk(g: Graph, ps: seq<Partition>, skips: seq<bool>, k: nat)
    requires k <= |ps| == |skips|
  {
    forall j :: k <= j < |ps| ==> LookupOk(g, ps, skips, j)
  }

  method UnionNames(p: Partition) returns (outputs: set<Name>, accesses: set<Name>, frees: set<Name>)
    ensures outputs == Outputs(p) && accesses == Accesses(p) && frees == Frees(p)
  {
    outputs, accesses, frees := {}, {}, {};
    for i := 0 to |p|
      invariant outputs == Outputs(p[..i]) && accesses == Accesses(p[..i]) && frees == Frees(p[..i])
    {
      assert p[..i + 1][..i] == p[..i];
      outputs := outputs + p[i].outputs;
      accesses := accesses + p[i].loads + p[i].stores;
      frees := frees + p[i].lastUsage;
    }
    assert p[..|p|] == p;
  }

  /** One turn of the pass: the signature of partition p and the names unmet before it. */
  method Turn(g: Graph, p: Partition, skip: bool, unmet: set<Name>) returns (sig: Signature, unmet': set<Name>)
    ensures sig == SignatureOf(g, p, skip, unmet)
    ensures unmet' == Inputs(g, p) + (unmet - Returned(g, p, unmet))
  {
    var produced, accesses, frees := UnionNames(p);
    var inputs := Renamed(g, set n | n in accesses && n !in g.unstored && n !in produced)
                  + (set n | n in frees && n !in produced && n in g.known);
    var returned := Renamed(g, produced * unmet + (set n | n in inputs && n in g.known && n !in frees));
    sig := Signature(inputs * g.known, inputs * g.known * frees, returned - g.unstored, inputs * g.constants, skip);
    unmet' := inputs + (unmet - returned);
  }

  /** The loop has worked off the partitions from k on. */
  ghost predicate PassedTo(g: Graph, ps: seq<Partition>, skips: seq<bool>, k: nat,
                           unmet: set<Name>, sigs: seq<Signature>)
    requires k <= |ps| == |skips|
  {
    unmet == NeedAt(g, ps, k) && sigs == SigsFrom(g, ps, skips, k)
  }

  /** The turn of partition k; `ok` says that every returned name has a node. */
  method TurnAt(g: Graph, ps: seq<Partition>, skips: seq<bool>, k: nat, unmet: set<Name>, sigs: seq<Signature>)
    returns (unmet': set<Name>, sigs': seq<Signature>, ok: bool)
    requires k < |ps| == |skips| && PassedTo(g, ps, skips, k + 1, unmet, sigs)
    ensures PassedTo(g, ps, skips, k, unmet', sigs') && (ok <==> LookupOk(g, ps, skips, k))
  {
    var sig;
    sig, unmet' := Turn(g, ps[k], skips[k], unmet);
    ok := sig.outputs <= g.known;
    sigs' := [sig] + sigs;
  }

  /** The pass: last partition first, carrying the names still unmet. */
  method GetSignatures(g: Graph, ps: seq<Partition>, skips: seq<bool>) returns (r: Option<seq<Signature>>)
    requires |ps| == |skips|
    ensures r == if LookupsOk(g, ps, skips, 0) then Some(SigsFrom(g, ps, skips, 0)) else None
  {
    var sigs: seq<Signature> := [];
    var unmet := g.outputs;
    var k: nat := |ps|;
    while k > 0
      invariant k <= |ps| && PassedTo(g, ps, skips, k, unmet, sigs) && LookupsOk(g, ps, skips, k)
    {
      k := k - 1;
      var ok;
      unmet, sigs, ok := TurnAt(g, ps, skips, k, unmet, sigs);
      if !ok {
        return None;
      }
    }
    return Some(sigs);
  }

  // ----- running the partitions -----

  /** A signature as a stage: values it takes, frees and returns. */
  function StageOf(sig: Signature): L.Stage<Name> {
    L.Stage(sig.inputs, sig.freed, sig.outputs)
  }

  function Stages(sigs: seq<Signature>): (r: seq<L.Stage<Name>>)
    ensures |r| == |sigs| && forall k :: 0 <= k < |r| ==> r[k] == StageOf(sigs[k])
  {
    seq(|sigs|, k requires 0 <= k < |sigs| => StageOf(sigs[k]))
  }

  /**
   The partitions run in order from the values in `start`: each finds its inputs,
   drops what it frees and adds what it returns; the graph outputs are there at the end.
   */
  ghost predicate RunsClean(g: Graph, sigs: seq<Signature>, start: set<Name>) {
    L.Runs(Stages(sigs), start, g.outputs * g.known)
  }

  // ----- what the graph itself says -----

  /** Some node of the partition produces n. */
  ghost predicate Produced(p: Partition, n: Name) {
    exists i :: 0 <= i < |p| && n in p[i].outputs
  }

  /** Some node of the partition reads or writes n. */
  ghost predicate Touched(p: Partition, n: Name) {
    exists i :: 0 <= i < |p| && (n in p[i].loads || n in p[i].stores)
  }

  /** Some node of the partition is the last user of n. */
  ghost predicate Freed(p: Partition, n: Name) {
    exists i :: 0 <= i < |p| && n in p[i].lastUsage
  }

  lemma {:induction false} UnionsAre(p: Partition, n: Name)
    ensures n in Outputs(p) <==> Produced(p, n)
    ensures n in Accesses(p) <==> Touched(p, n)
    ensures n in Frees(p) <==> Freed(p, n)
  {
    if p != [] {
      var front, last := p[..|p| - 1], |p| - 1;
      UnionsAre(front, n);
      assert forall i :: 0 <= i < last ==> front[i] == p[i];
      assert Produced(p, n) <==> Produced(front, n) || n in p[last].outputs;
      assert Touched(p, n) <==> Touched(front, n) || n in p[last].loads || n in p[last].stores;
      assert Freed(p, n) <==> Freed(front, n) || n in p[last].lastUsage;
    }
  }

  /** A name the partition reads or writes without producing it, and that has storage. */
  ghost predicate Reaches(g: Graph, p: Partition, n: Name) {
    Touched(p, n) && !Produced(p, n) && n !in g.unstored
  }

  /**
   The partition takes n: it reaches n and n is no second name, or it reaches a second name of n, or it is
   the last user of n, which has a node.
   */
  ghost predicate Takes(g: Graph, p: Partition, n: Name) {
    || (Reaches(g, p, n) && n !in g.alias)
    || (exists m :: m in g.alias && g.alias[m] == n && Reaches(g, p, m))
    || (Freed(p, n) && !Produced(p, n) && n in g.known)
  }

  lemma InputsIff(g: Graph, p: Partition, n: Name)
    ensures n in Inputs(g, p) <==> Takes(g, p, n)
  {
    forall m ensures (m in Outputs(p) <==> Produced(p, m)) && (m in Accesses(p) <==> Touched(p, m))
      ensures m in Frees(p) <==> Freed(p, m)
    {
      UnionsAre(p, m);
    }
    var taken := set m | m in Accesses(p) && m !in g.unstored && m !in Outputs(p);
    assert forall m :: m in taken <==> Reaches(g, p, m);
    RenamedIff(g, taken, n);
  }

  lemma RenamedIff(g: Graph, names: set<Name>, n: Name)
    ensures n in Renamed(g, names) <==>
              (n in names && n !in g.alias) || exists m :: m in g.alias && g.alias[m] == n && m in names
  {
    if n in Renamed(g, names) {
      var m :| m in names && RealName(g, m) == n;
    } else {
      assert n in names && n !in g.alias ==> RealName(g, n) == n;
      forall m | m in g.alias && g.alias[m] == n ensures m !in names {
        assert m in names ==> RealName(g, m) == n;
      }
    }
  }

  /** A real name is its own real name. */
  ghost predicate Direct(g: Graph) {
    forall n :: n in g.alias ==> g.alias[n] !in g.alias
  }

  /** Partition j takes n; at the end the graph does. */
  ghost predicate Wants(g: Graph, ps: seq<Partition>, j: nat, n: Name)
    requires j <= |ps|
  {
    if j == |ps| then n in g.outputs else Takes(g, ps[j], n)
  }

  ghost predicate WantedFrom(g: Graph, ps: seq<Partition>, k: nat, n: Name)
    requires k <= |ps|
  {
    exists j :: k <= j <= |ps| && Wants(g, ps, j, n)
  }

  /** The partition mutates n under another name, and that name is wanted later. */
  ghost predicate Mutates(g: Graph, ps: seq<Partition>, k: nat, n: Name)
    requires k < |ps|
  {
    exists m :: m in g.alias && g.alias[m] == n && Produced(ps[k], m) && WantedFrom(g, ps, k + 1, m)
  }

  /** A partition can hand n on: n has storage and is not a second name. */
  predicate Handable(g: Graph, n: Name) {
    n !in g.unstored && n !in g.alias
  }

  ghost predicate Makes(g: Graph, ps: seq<Partition>, k: nat, n: Name)
    requires k < |ps|
  {
    Handable(g, n) && (Produced(ps[k], n) || Mutates(g, ps, k, n))
  }

  /** From partition k on somebody takes n before anybody makes it. */
  ghost predicate LiveAt(g: Graph, ps: seq<Partition>, k: nat, n: Name)
    requires k <= |ps|
  {
    exists j :: k <= j <= |ps| && Wants(g, ps, j, n) && NoneMakes(g, ps, k, j, n)
  }

  ghost predicate NoneMakes(g: Graph, ps: seq<Partition>, k: nat, j: nat, n: Name)
    requires j <= |ps|
  {
    forall i :: k <= i < j ==> !Makes(g, ps, i, n)
  }

  lemma LiveStep(g: Graph, ps: seq<Partition>, k: nat, n: Name)
    requires k < |ps|
    ensures LiveAt(g, ps, k, n) <==> Wants(g, ps, k, n) || (LiveAt(g, ps, k + 1, n) && !Makes(g, ps, k, n))
  {
    assert NoneMakes(g, ps, k, k, n);
    forall j | k < j <= |ps|
      ensures NoneMakes(g, ps, k, j, n) <==> !Makes(g, ps, k, n) && NoneMakes(g, ps, k + 1, j, n)
    {
    }
  }

  lemma LiveEnd(g: Graph, ps: seq<Partition>, n: Name)
    ensures LiveAt(g, ps, |ps|, n) <==> n in g.outputs
  {
    assert NoneMakes(g, ps, |ps|, |ps|, n);
  }

  // ----- the pass finds it -----

  /** A partition takes a second name only to free it. */
  lemma AliasInput(g: Graph, p: Partition, n: Name)
    requires Direct(g) && n in Inputs(g, p) && n in g.alias
    ensures n in Frees(p)
  {
  }

  /** What a partition returns: produced and mutated names that are needed, and the inputs it keeps. */
  lemma ReturnedIff(g: Graph, p: Partition, unmet: set<Name>, n: Name)
    requires Direct(g)
    ensures n in Returned(g, p, unmet) <==>
              && n !in g.alias
              && (|| n in Outputs(p) * unmet
                  || (exists m :: m in g.alias && g.alias[m] == n && m in Outputs(p) * unmet)
                  || (n in Inputs(g, p) && n in g.known && n !in Frees(p)))
  {
    var kept := set m | m in Inputs(g, p) && m in g.known && m !in Frees(p);
    var back := Outputs(p) * unmet + kept;
    if n in Returned(g, p, unmet) {
      var m :| m in back && RealName(g, m) == n;
      if m in g.alias && m in kept {
        AliasInput(g, p, m);
      }
    } else if n !in g.alias {
      assert n in back ==> RealName(g, n) == n;
      forall m | m in g.alias && g.alias[m] == n ensures m !in Outputs(p) * unmet {
        assert m in back ==> RealName(g, m) == n;
      }
    }
  }

  /** A second name is never met, so it stays unmet as long as it is wanted. */
  lemma {:induction false} AliasUnmet(g: Graph, ps: seq<Partition>, k: nat, m: Name)
    requires Direct(g) && k <= |ps| && m in g.alias
    ensures m in NeedAt(g, ps, k) <==> WantedFrom(g, ps, k, m)
    decreases |ps| - k
  {
    if k == |ps| {
      assert Wants(g, ps, k, m) <==> m in g.outputs;
    } else {
      AliasUnmet(g, ps, k + 1, m);
      ReturnedIff(g, ps[k], NeedAt(g, ps, k + 1), m);
      InputsIff(g, ps[k], m);
      WantedStep(g, ps, k, m);
    }
  }

  lemma WantedStep(g: Graph, ps: seq<Partition>, k: nat, n: Name)
    requires k < |ps|
    ensures WantedFrom(g, ps, k, n) <==> Takes(g, ps[k], n) || WantedFrom(g, ps, k + 1, n)
  {
    assert Wants(g, ps, k, n) <==> Takes(g, ps[k], n);
  }

  lemma MutatesIff(g: Graph, ps: seq<Partition>, k: nat, n: Name)
    requires Direct(g) && k < |ps|
    ensures Mutates(g, ps, k, n) <==>
              exists m :: m in g.alias && g.alias[m] == n && m in Outputs(ps[k]) * NeedAt(g, ps, k + 1)
  {
    forall m | m in g.alias
      ensures m in Outputs(ps[k]) * NeedAt(g, ps, k + 1) <==> Produced(ps[k], m) && WantedFrom(g, ps, k + 1, m)
    {
      AliasUnmet(g, ps, k + 1, m);
      UnionsAre(ps[k], m);
    }
  }

  /** The names the pass carries are the live ones. */
  lemma {:induction false} UnmetIsLive(g: Graph, ps: seq<Partition>, k: nat, n: Name)
    requires Direct(g) && k <= |ps| && Handable(g, n)
    ensures n in NeedAt(g, ps, k) <==> LiveAt(g, ps, k, n)
    decreases |ps| - k
  {
    if k == |ps| {
      LiveEnd(g, ps, n);
    } else {
      UnmetIsLive(g, ps, k + 1, n);
      LiveStep(g, ps, k, n);
      InputsIff(g, ps[k], n);
      UnionsAre(ps[k], n);
      ReturnedIff(g, ps[k], NeedAt(g, ps, k + 1), n);
      MutatesIff(g, ps, k, n);
    }
  }

  /** Partition k returns n: it can be handed on, and is made there and live, or mutated, or taken and not freed. */
  ghost predicate Returns(g: Graph, ps: seq<Partition>, k: nat, n: Name)
    requires k < |ps|
  {
    && Handable(g, n)
    && (|| (Produced(ps[k], n) && LiveAt(g, ps, k + 1, n))
        || Mutates(g, ps, k, n)
        || (Takes(g, ps[k], n) && n in g.known && !Freed(ps[k], n)))
  }

  /** The signature of a partition, name by name, from the graph alone. */
  lemma SignatureIff(g: Graph, ps: seq<Partition>, skips: seq<bool>, k: nat, n: Name)
    requires Direct(g) && k < |ps| == |skips|
    ensures var sig := SigAt(g, ps, skips, k);
            && (n in sig.inputs <==> Takes(g, ps[k], n) && n in g.known)
            && (n in sig.freed <==> Takes(g, ps[k], n) && n in g.known && Freed(ps[k], n))
            && (n in sig.outputs <==> Returns(g, ps, k, n))
            && (n in sig.constants <==> Takes(g, ps[k], n) && n in g.constants)
            && sig.skipCudagraph == skips[k]
  {
    InputsIff(g, ps[k], n);
    UnionsAre(ps[k], n);
    ReturnedIff(g, ps[k], NeedAt(g, ps, k + 1), n);
    MutatesIff(g, ps, k, n);
    if Handable(g, n) {
      UnmetIsLive(g, ps, k + 1, n);
    }
  }

  /** Every name partition k has to return has a node. */
  ghost predicate ReturnsKnown(g: Graph, ps: seq<Partition>, k: nat)
    requires k < |ps|
  {
    forall n :: Returns(g, ps, k, n) ==> n in g.known
  }

  lemma LookupIff(g: Graph, ps: seq<Partition>, skips: seq<bool>, k: nat)
    requires Direct(g) && k < |ps| == |skips|
    ensures LookupOk(g, ps, skips, k) <==> ReturnsKnown(g, ps, k)
  {
    forall n ensures n in SigAt(g, ps, skips, k).outputs <==> Returns(g, ps, k, n) {
      SignatureIff(g, ps, skips, k, n);
    }
  }

  /** The pass fails exactly when some partition has to return a name without a node. */
  lemma LookupsIff(g: Graph, ps: seq<Partition>, skips: seq<bool>)
    requires Direct(g) && |ps| == |skips|
    ensures LookupsOk(g, ps, skips, 0) <==> forall k :: 0 <= k < |ps| ==> ReturnsKnown(g, ps, k)
  {
    forall k | 0 <= k < |ps| ensures LookupOk(g, ps, skips, k) <==> ReturnsKnown(g, ps, k) {
      LookupIff(g, ps, skips, k);
    }
  }

  lemma StageIff(g: Graph, ps: seq<Partition>, skips: seq<bool>, k: nat, n: Name)
    requires Direct(g) && k < |ps| == |skips|
    ensures var s := Stages(SigsFrom(g, ps, skips, 0))[k];
            && (n in s.inputs <==> Takes(g, ps[k], n) && n in g.known)
            && (n in s.freed <==> Takes(g, ps[k], n) && n in g.known && Freed(ps[k], n))
            && (n in s.passed <==> Returns(g, ps, k, n))
  {
    SigsFromAt(g, ps, skips, 0, k);
    SignatureIff(g, ps, skips, k, n);
  }

  /** What the run needs before partition k is what is live there. */
  lemma {:induction false} NeedIsLive(g: Graph, ps: seq<Partition>, skips: seq<bool>, k: nat, n: Name)
    requires Direct(g) && k <= |ps| == |skips|
    ensures n in L.Need(Stages(SigsFrom(g, ps, skips, 0)), g.outputs * g.known, k)
            <==> n in g.known && LiveAt(g, ps, k, n)
    decreases |ps| - k
  {
    if k == |ps| {
      LiveEnd(g, ps, n);
    } else {
      NeedIsLive(g, ps, skips, k + 1, n);
      LiveStep(g, ps, k, n);
      StageIff(g, ps, skips, k, n);
      L.NeedStep(Stages(SigsFrom(g, ps, skips, 0)), g.outputs * g.known, k, n);
    }
  }

  /** Everything live at the beginning is given. */
  ghost predicate StartCovers(g: Graph, ps: seq<Partition>, start: set<Name>) {
    forall n :: n in g.known && LiveAt(g, ps, 0, n) ==> n in start
  }

  /** What a partition frees is dead after it, or made there again. */
  ghost predicate FreesDead(g: Graph, ps: seq<Partition>) {
    forall k, n ::
      0 <= k < |ps| && n in g.known && Takes(g, ps[k], n) && Freed(ps[k], n) && LiveAt(g, ps, k + 1, n)
      ==> Makes(g, ps, k, n)
  }

  lemma FreedKept(g: Graph, ps: seq<Partition>, skips: seq<bool>, k: nat)
    requires Direct(g) && k < |ps| == |skips|
    ensures var ss := Stages(SigsFrom(g, ps, skips, 0));
            ss[k].freed * L.Need(ss, g.outputs * g.known, k + 1) <= ss[k].passed
            <==> forall n :: n in g.known && Takes(g, ps[k], n) && Freed(ps[k], n) && LiveAt(g, ps, k + 1, n)
                             ==> Makes(g, ps, k, n)
  {
    var ss := Stages(SigsFrom(g, ps, skips, 0));
    forall n
      ensures n in ss[k].freed * L.Need(ss, g.outputs * g.known, k + 1) <==>
                n in g.known && Takes(g, ps[k], n) && Freed(ps[k], n) && LiveAt(g, ps, k + 1, n)
      ensures n in ss[k].freed && LiveAt(g, ps, k + 1, n) ==> (n in ss[k].passed <==> Makes(g, ps, k, n))
    {
      StageIff(g, ps, skips, k, n);
      NeedIsLive(g, ps, skips, k + 1, n);
    }
  }

  /**
   With the signatures of the pass the partitions run, each finding its inputs, and the graph outputs
   survive if and only if the start covers what is live and no partition frees what is live after it.
   */
  lemma RunsCleanIff(g: Graph, ps: seq<Partition>, skips: seq<bool>, start: set<Name>)
    requires |ps| == |skips| && Direct(g)
    ensures RunsClean(g, SigsFrom(g, ps, skips, 0), start) <==> StartCovers(g, ps, start) && FreesDead(g, ps)
  {
    var ss, final := Stages(SigsFrom(g, ps, skips, 0)), g.outputs * g.known;
    forall n ensures n in L.Need(ss, final, 0) <==> n in g.known && LiveAt(g, ps, 0, n) {
      NeedIsLive(g, ps, skips, 0, n);
    }
    forall k | 0 <= k < |ps|
      ensures ss[k].freed * L.Need(ss, final, k + 1) <= ss[k].passed
              <==> forall n :: n in g.known && Takes(g, ps[k], n) && Freed(ps[k], n) && LiveAt(g, ps, k + 1, n)
                               ==> Makes(g, ps, k, n)
    {
      FreedKept(g, ps, skips, k);
    }
    L.RunsIff(ss, start, final);
  }

  // ----- correct last-use marks -----

  ghost predicate MadeBefore(g: Graph, ps: seq<Partition>, k: nat, n: Name)
    requires k <= |ps|
  {
    exists i :: 0 <= i < k && Makes(g, ps, i, n)
  }

  /** The marks of a correct schedule: what is taken is given or made earlier, and what is freed is not taken later. */
  ghost predicate WellScheduled(g: Graph, ps: seq<Partition>, start: set<Name>) {
    && (forall k, n :: 0 <= k <= |ps| && Wants(g, ps, k, n) && n in g.known ==> n in start || MadeBefore(g, ps, k, n))
    && (forall k, j, n :: 0 <= k < j <= |ps| && Takes(g, ps[k], n) && Freed(ps[k], n) ==> !Wants(g, ps, j, n))
  }

  /** On a well scheduled graph every partition finds its inputs and every output survives to the end. */
  lemma WellScheduledRuns(g: Graph, ps: seq<Partition>, skips: seq<bool>, start: set<Name>)
    requires |ps| == |skips| && Direct(g) && WellScheduled(g, ps, start)
    ensures RunsClean(g, SigsFrom(g, ps, skips, 0), start)
  {
    forall n | n in g.known && LiveAt(g, ps, 0, n) ensures n in start {
      var j :| 0 <= j <= |ps| && Wants(g, ps, j, n) && NoneMakes(g, ps, 0, j, n);
    }
    RunsCleanIff(g, ps, skips, start);
  }

  /** A second name or a name without storage is live exactly as long as somebody takes it. */
  lemma NeverHanded(g: Graph, ps: seq<Partition>, k: nat, n: Name)
    requires k <= |ps| && !Handable(g, n)
    ensures LiveAt(g, ps, k, n) <==> WantedFrom(g, ps, k, n)
  {
    forall j | k <= j <= |ps| ensures NoneMakes(g, ps, k, j, n) {
    }
  }

  /** The last partition that makes a graph output returns it. */
  lemma OutputReturned(g: Graph, ps: seq<Partition>, skips: seq<bool>, k: nat, n: Name)
    requires Direct(g) && k < |ps| == |skips| && n in g.outputs && Makes(g, ps, k, n)
    requires NoneMakes(g, ps, k + 1, |ps|, n)
    ensures n in SigAt(g, ps, skips, k).outputs
  {
    assert Wants(g, ps, |ps|, n);
    SignatureIff(g, ps, skips, k, n);
  }

  /** A produced name that is not an input is returned only if it is live or mutated under a name wanted later. */
  lemma NothingDeadReturned(g: Graph, ps: seq<Partition>, skips: seq<bool>, k: nat, n: Name)
    requires Direct(g) && k < |ps| == |skips| && !Takes(g, ps[k], n)
    requires n in SigAt(g, ps, skips, k).outputs
    ensures (Produced(ps[k], n) && LiveAt(g, ps, k + 1, n)) || Mutates(g, ps, k, n)
  {
    SignatureIff(g, ps, skips, k, n);
  }

  /** What a partition takes is gone after it if it is freed there and not made again, and handed on otherwise. */
  lemma InputFate(g: Graph, ps: seq<Partition>, skips: seq<bool>, start: set<Name>, k: nat, n: Name)
    requires Direct(g) && k < |ps| == |skips| && Wants(g, ps, k, n) && n in g.known && Handable(g, n)
    ensures n in SigAt(g, ps, skips, k).inputs
    ensures n in L.Available(Stages(SigsFrom(g, ps, skips, 0)), start, k + 1) <==>
              || !Freed(ps[k], n)
              || (Produced(ps[k], n) && LiveAt(g, ps, k + 1, n))
              || Mutates(g, ps, k, n)
  {
    StageIff(g, ps, skips, k, n);
    SignatureIff(g, ps, skips, k, n);
  }
}
