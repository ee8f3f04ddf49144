/**
 The demo network: neurons share their inputs, firing one fires everything below it again
 and again, and the flags end up where one evaluation of the network puts them.
 */
module NeuronNetwork {
  class Neuron {
    var inputs: seq<Neuron>
    var weight: real
    var threshold: real
    var fired: bool

    constructor (t: real)
      ensures threshold == t && !fired && inputs == [] && weight == 0.0
    {
      threshold, fired, inputs, weight := t, false, [], 0.0;
    }

    method Connect(ns: seq<Neuron>)
      modifies this`inputs
      ensures inputs == old(inputs) + ns
    {
      inputs := inputs + ns;
    }

    method SetWeight(newWeight: real)
      modifies this`weight
      ensures weight == newWeight
    {
      weight := newWeight;
    }

    method SetBooleanWeight(newWeight: bool)
      modifies this`weight
      ensures weight == if newWeight then 1.0 else 0.0
    {
      weight := if newWeight then 1.0 else 0.0;
    }
  }

  // What a neuron looks like before firing; levels decrease along inputs.
  datatype View = View(inputs: seq<Neuron>, weight: real, threshold: real, fired: bool, level: nat)

  type Network = map<Neuron, View>

  ghost predicate Layered(w: Network) {
    forall n, k :: n in w && 0 <= k < |w[n].inputs| ==> w[n].inputs[k] in w && w[w[n].inputs[k]].level < w[n].level
  }

  // The evaluation: a neuron without inputs and without weight keeps its flag.
  ghost predicate Fires(w: Network, n: Neuron)
    requires Layered(w) && n in w
    decreases w[n].level, 1
  {
    if w[n].inputs != [] then Total(w, n, |w[n].inputs|) > w[n].threshold
    else if w[n].weight != 0.0 then w[n].weight > w[n].threshold
    else w[n].fired
  }

  // The weights of those of the first k inputs that fire.
  ghost function Total(w: Network, n: Neuron, k: nat): real
    requires Layered(w) && n in w && k <= |w[n].inputs|
    decreases w[n].level, 0, k
  {
    if k == 0 then 0.0
    else
      var input := w[n].inputs[k - 1];
      Total(w, n, k - 1) + if Fires(w, input) then w[input].weight else 0.0
  }

  ghost function Output(w: Network, n: Neuron): real
    requires Layered(w) && n in w
  {
    if w[n].inputs != [] then Total(w, n, |w[n].inputs|) else w[n].weight
  }

  /** A neuron fires exactly when what it puts out is more than its threshold, and what it puts
      out is what its firing inputs weigh together. A neuron without inputs and weight stays as
      it is. */
  lemma FiresAbove(w: Network, n: Neuron)
    requires Layered(w) && n in w
    ensures w[n].inputs != [] || w[n].weight != 0.0 ==> (Output(w, n) <= w[n].threshold <==> !Fires(w, n))
    ensures w[n].inputs == [] && w[n].weight == 0.0 ==> Fires(w, n) == w[n].fired
    ensures |w[n].inputs| == 1 ==> Output(w, n) == if Fires(w, w[n].inputs[0]) then w[w[n].inputs[0]].weight else 0.0
    ensures |w[n].inputs| == 2 ==>
              Output(w, n) == (if Fires(w, w[n].inputs[0]) then w[w[n].inputs[0]].weight else 0.0)
                              + (if Fires(w, w[n].inputs[1]) then w[w[n].inputs[1]].weight else 0.0)
  {
    if w[n].inputs != [] {
      assert Total(w, n, 1) == Total(w, n, 0) + if Fires(w, w[n].inputs[0]) then w[w[n].inputs[0]].weight else 0.0;
    }
    if |w[n].inputs| == 2 {
      assert Total(w, n, 2) == Total(w, n, 1) + if Fires(w, w[n].inputs[1]) then w[w[n].inputs[1]].weight else 0.0;
    }
  }

  // m is n or lies below it.
  ghost predicate Reaches(w: Network, n: Neuron, m: Neuron)
    requires Layered(w) && n in w
    decreases w[n].level
  {
    n == m || exists k :: 0 <= k < |w[n].inputs| && Reaches(w, w[n].inputs[k], m)
  }

  // The heap is the network, some flags already set as the evaluation says.
  ghost predicate Partly(w: Network)
    requires Layered(w)
    reads w.Keys
  {
    forall n :: n in w ==>
      && n.inputs == w[n].inputs && n.weight == w[n].weight && n.threshold == w[n].threshold
      && (n.fired == w[n].fired || n.fired == Fires(w, n))
  }

  lemma TotalStep(w: Network, n: Neuron, k: nat)
    requires Layered(w) && n in w && k < |w[n].inputs|
    ensures var input := w[n].inputs[k];
            input in w && w[input].level < w[n].level
            && Total(w, n, k + 1) == Total(w, n, k) + if Fires(w, input) then w[input].weight else 0.0
    ensures Total(w, n, 0) == 0.0
  {
  }

  lemma FiringRule(w: Network, n: Neuron)
    requires Layered(w) && n in w
    ensures w[n].inputs != [] ==> Fires(w, n) == (Total(w, n, |w[n].inputs|) > w[n].threshold)
    ensures w[n].inputs == [] && w[n].weight != 0.0 ==> Fires(w, n) == (w[n].weight > w[n].threshold)
    ensures w[n].inputs == [] && w[n].weight == 0.0 ==> Fires(w, n) == w[n].fired
    ensures Total(w, n, 0) == 0.0
  {
  }

  lemma ReachesFirst(w: Network, n: Neuron, m: Neuron)
    requires Layered(w) && n in w
    ensures Reaches(w, n, n)
    ensures Reaches(w, n, m) && m != n ==> exists k :: 0 <= k < |w[n].inputs| && Reaches(w, w[n].inputs[k], m)
  {
  }

  // The flags of everything reached from the first k inputs are set.
  ghost predicate Settled(w: Network, n: Neuron, k: nat)
    requires Layered(w) && n in w && k <= |w[n].inputs|
    reads w.Keys
  {
    forall m, j :: m in w && 0 <= j < k && Reaches(w, w[n].inputs[j], m) ==> m.fired == Fires(w, m)
  }

  /** Firing terminates, returns the evaluated output, and every neuron reached has the
      evaluated flag; no flag changes to anything else. */
  method Fire(n: Neuron, ghost w: Network) returns (total: real)
    requires Layered(w) && n in w && Partly(w)
    modifies w.Keys`fired
    ensures Partly(w) && total == Output(w, n)
    ensures forall m :: m in w && Reaches(w, n, m) ==> m.fired == Fires(w, m)
    ensures forall m :: m in w ==> m.fired == old(m.fired) || m.fired == Fires(w, m)
    decreases w[n].level, 1
  {
    assert forall k :: 0 <= k < |w[n].inputs| ==> w[n].inputs[k] in w;
    hide Layered;
    hide Fires;
    hide Total;
    hide Reaches;
    FiringRule(w, n);
    forall m | m in w && Reaches(w, n, m) && m != n
      ensures exists k :: 0 <= k < |w[n].inputs| && Reaches(w, w[n].inputs[k], m)
    {
      ReachesFirst(w, n, m);
    }
    if |n.inputs| > 0 {
      var totalWeight := FireInputs(n, w);
      n.fired := totalWeight > n.threshold;
      return totalWeight;
    } else if n.weight != 0.0 {
      n.fired := n.weight > n.threshold;
      return n.weight;
    } else {
      return 0.0;
    }
  }

  // Fires the inputs one after another and adds up the weights of those that end up fired.
  method FireInputs(n: Neuron, ghost w: Network) returns (totalWeight: real)
    requires Layered(w) && n in w && Partly(w)
    modifies w.Keys`fired
    ensures Partly(w) && totalWeight == Total(w, n, |w[n].inputs|) && Settled(w, n, |w[n].inputs|)
    ensures forall m :: m in w ==> m.fired == old(m.fired) || m.fired == Fires(w, m)
    decreases w[n].level, 0
  {
    var inputs := n.inputs;
    assert forall k :: 0 <= k < |inputs| ==> inputs[k] in w;
    hide Layered;
    hide Fires;
    hide Total;
    hide Reaches;
    FiringRule(w, n);
    totalWeight := 0.0;
    for k := 0 to |inputs|
      invariant inputs == w[n].inputs && Partly(w) && totalWeight == Total(w, n, k) && Settled(w, n, k)
      invariant forall m :: m in w ==> m.fired == old(m.fired) || m.fired == Fires(w, m)
    {
      TotalStep(w, n, k);
      ReachesFirst(w, inputs[k], inputs[k]);
      var ignored := Fire(inputs[k], w);
      totalWeight := totalWeight + if inputs[k].fired then inputs[k].weight else 0.0;
    }
  }

  // ---------------------------------------------------------------- the example network

  // Case does not matter.
  predicate ParseBoolean(s: string) {
    |s| == 4 && s[0] in "tT" && s[1] in "rR" && s[2] in "uU" && s[3] in "eE"
  }

  /** Only the word `true` is true, in any case of letters. */
  lemma ParsesTrue(s: string)
    ensures ParseBoolean(s) <==> |s| == 4 && [Lower(s[0]), Lower(s[1]), Lower(s[2]), Lower(s[3])] == "true"
  {
    if |s| == 4 {
      var l := [Lower(s[0]), Lower(s[1]), Lower(s[2]), Lower(s[3])];
      assert l == "true" <==> l[0] == 't' && l[1] == 'r' && l[2] == 'u' && l[3] == 'e';
    }
  }

  function Lower(c: char): char {
    if 'A' <= c <= 'Z' then c + 32 as char else c
  }

  function CountTrue(args: seq<string>): nat {
    if args == [] then 0 else CountTrue(args[..|args| - 1]) + if ParseBoolean(args[|args| - 1]) then 1 else 0
  }

  ghost predicate InputNeurons(w: Network, ops: seq<Neuron>, args: seq<string>) {
    |ops| == |args| && forall k :: 0 <= k < |ops| ==>
      ops[k] in w && w[ops[k]] == View([], if ParseBoolean(args[k]) then 1.0 else 0.0, 0.0, false, 0)
  }

  lemma {:induction false} InputsCounted(w: Network, n: Neuron, args: seq<string>, k: nat)
    requires Layered(w) && n in w && InputNeurons(w, w[n].inputs, args) && k <= |args|
    ensures Total(w, n, k) == CountTrue(args[..k]) as real
    decreases k
  {
    if k > 0 {
      InputsCounted(w, n, args, k - 1);
      assert args[..k][..k - 1] == args[..k - 1];
      assert w[w[n].inputs[k - 1]].inputs == [];
    }
  }

  // How the three inner neurons are wired.
  ghost predicate Wired(w: Network, xor: Neuron, left: Neuron, right: Neuron, ops: seq<Neuron>) {
    && xor in w && left in w && right in w
    && w[xor] == View([left, right], 0.0, 0.5, false, 2)
    && w[left] == View(ops, -1.0, 1.5, false, 1)
    && w[right] == View(ops, 1.0, 0.5, false, 1)
  }

  lemma NetworkDecides(w: Network, xor: Neuron, left: Neuron, right: Neuron, ops: seq<Neuron>, args: seq<string>)
    requires Layered(w) && Wired(w, xor, left, right, ops) && InputNeurons(w, ops, args)
    ensures Fires(w, xor) <==> args == [] || CountTrue(args) == 1
  {
    assert args[..|args|] == args;
    InputsCounted(w, left, args, |args|);
    InputsCounted(w, right, args, |args|);
    assert Total(w, xor, 2) == Total(w, xor, 1) + if Fires(w, right) then 1.0 else 0.0;
    assert Total(w, xor, 1) == Total(w, xor, 0) + if Fires(w, left) then -1.0 else 0.0;
  }

  // The heap the example builds.
  ghost predicate Built(xor: Neuron, left: Neuron, right: Neuron, ops: seq<Neuron>, args: seq<string>)
    reads xor, left, right, ops
  {
    && xor != left && xor != right && left != right && xor !in ops && left !in ops && right !in ops
    && xor.inputs == [left, right] && left.inputs == ops && right.inputs == ops
    && xor.weight == 0.0 && xor.threshold == 0.5 && !xor.fired
    && left.weight == -1.0 && left.threshold == 1.5 && !left.fired
    && right.weight == 1.0 && right.threshold == 0.5 && !right.fired
    && |ops| == |args|
    && forall k :: 0 <= k < |ops| ==> ops[k].inputs == [] && ops[k].threshold == 0.0 && !ops[k].fired
                                      && ops[k].weight == if ParseBoolean(args[k]) then 1.0 else 0.0
  }

  ghost function ViewOf(xor: Neuron, left: Neuron, right: Neuron, ops: seq<Neuron>): Network
    reads xor, left, right, ops
  {
    map n | n in ops + [xor, left, right] ::
      View(n.inputs, n.weight, n.threshold, n.fired, if n == xor then 2 else if n == left || n == right then 1 else 0)
  }

  lemma ViewFits(xor: Neuron, left: Neuron, right: Neuron, ops: seq<Neuron>, args: seq<string>)
    requires Built(xor, left, right, ops, args)
    ensures var w := ViewOf(xor, left, right, ops);
            Layered(w) && Wired(w, xor, left, right, ops) && InputNeurons(w, ops, args) && Partly(w)
    ensures ViewOf(xor, left, right, ops).Keys == {xor, left, right} + set n | n in ops
  {
    var w := ViewOf(xor, left, right, ops);
    forall k | 0 <= k < |ops|
      ensures ops[k] in w && w[ops[k]].inputs == [] && w[ops[k]].level == 0
    {
      assert ops[k] in ops;
    }
  }

  method Build(args: seq<string>) returns (xor: Neuron, left: Neuron, right: Neuron, ghost ops: seq<Neuron>)
    ensures Built(xor, left, right, ops, args)
    ensures fresh(xor) && fresh(left) && fresh(right) && forall n :: n in ops ==> fresh(n)
  {
    xor := new Neuron(0.5);
    left := new Neuron(1.5);
    right := new Neuron(0.5);
    left.SetWeight(-1.0);
    right.SetWeight(1.0);
    xor.Connect([left, right]);
    ops := [];
    assert Built(xor, left, right, ops, args[..0]);
    hide Built;
    for k := 0 to |args|
      invariant fresh(xor) && fresh(left) && fresh(right) && forall n :: n in ops ==> fresh(n)
      invariant Built(xor, left, right, ops, args[..k])
    {
      var op := AddInput(xor, left, right, ops, args[..k], args[k]);
      ops := ops + [op];
      assert args[..k + 1] == args[..k] + [args[k]];
    }
    assert args[..|args|] == args;
  }

  method AddInput(ghost xor: Neuron, left: Neuron, right: Neuron, ghost ops: seq<Neuron>, ghost args: seq<string>, val: string)
    returns (op: Neuron)
    requires Built(xor, left, right, ops, args)
    modifies left`inputs, right`inputs
    ensures fresh(op) && Built(xor, left, right, ops + [op], args + [val])
  {
    op := new Neuron(0.0);
    op.SetBooleanWeight(ParseBoolean(val));
    left.Connect([op]);
    right.Connect([op]);
    forall k | 0 <= k < |ops|
      ensures ops[k].inputs == [] && ops[k] == (ops + [op])[k] && ops[k] in ops
    {
    }
  }

  /** The example fires exactly when precisely one argument is true, or there is none at all:
      without arguments the inner neurons have no inputs and fire on their own weights. */
  method Xor(args: seq<string>) returns (result: bool)
    ensures result <==> args == [] || CountTrue(args) == 1
  {
    hide Layered;
    hide Fires;
    hide Reaches;
    hide Built;
    var xor, left, right, ops := Build(args);
    ghost var w: Network := ViewOf(xor, left, right, ops);
    ViewFits(xor, left, right, ops, args);
    NetworkDecides(w, xor, left, right, ops, args);
    ReachesFirst(w, xor, xor);
    var ignored := Fire(xor, w);
    result := xor.fired;
  }
}
