/** Node lists by their names alone: each node reads names that are defined and defines names that are not. */
module OnnxOrder {
  import opened OnnxGraph

  predicate Distinct(names: seq<Name>) {
    forall i, j :: 0 <= i < j < |names| ==> names[i] != names[j]
  }

  function Outputs(node: Node): (s: set<Name>) {
    set o | o in node.outputs
  }

  predicate Runnable(node: Node, defined: set<Name>) {
    && (forall i :: 0 <= i < |node.inputs| ==> node.inputs[i] in defined)
    && (forall i :: 0 <= i < |node.outputs| ==> node.outputs[i] !in defined)
    && Distinct(node.outputs)
  }

  /** Topologically sorted, each name assigned once: it depends on no value. */
  predicate Sorted(nodes: seq<Node>, defined: set<Name>) {
    nodes == [] || (Runnable(nodes[0], defined) && Sorted(nodes[1..], defined + Outputs(nodes[0])))
  }

  function AllOutputs(nodes: seq<Node>): (s: set<Name>) {
    if nodes == [] then {} else Outputs(nodes[0]) + AllOutputs(nodes[1..])
  }

  lemma {:induction false} SortedAppend(a: seq<Node>, b: seq<Node>, defined: set<Name>)
    ensures Sorted(a + b, defined) <==> Sorted(a, defined) && Sorted(b, defined + AllOutputs(a))
  {
    if a == [] {
      assert a + b == b && defined + AllOutputs(a) == defined;
    } else {
      assert (a + b)[0] == a[0] && (a + b)[1..] == a[1..] + b;
      assert defined + AllOutputs(a) == defined + Outputs(a[0]) + AllOutputs(a[1..]);
      SortedAppend(a[1..], b, defined + Outputs(a[0]));
    }
  }

  lemma {:induction false} OutputsAppend(a: seq<Node>, b: seq<Node>)
    ensures AllOutputs(a + b) == AllOutputs(a) + AllOutputs(b)
  {
    if a == [] {
      assert a + b == b;
    } else {
      assert (a + b)[0] == a[0] && (a + b)[1..] == a[1..] + b;
      OutputsAppend(a[1..], b);
    }
  }

  lemma SortedCons(node: Node, rest: seq<Node>, defined: set<Name>)
    requires Runnable(node, defined) && Sorted(rest, defined + Outputs(node))
    ensures Sorted([node] + rest, defined) && AllOutputs([node] + rest) == Outputs(node) + AllOutputs(rest)
  {
    assert ([node] + rest)[1..] == rest;
  }

  lemma SortedPair(a: Node, b: Node, defined: set<Name>)
    requires Runnable(a, defined) && Runnable(b, defined + Outputs(a))
    ensures Sorted([a, b], defined) && AllOutputs([a, b]) == Outputs(a) + Outputs(b)
  {
    SortedCons(b, [], defined + Outputs(a));
    assert [b] + [] == [b] && [a] + [b] == [a, b];
    SortedCons(a, [b], defined);
  }

  lemma SortedTriple(a: Node, b: Node, c: Node, defined: set<Name>)
    requires Runnable(a, defined) && Runnable(b, defined + Outputs(a)) && Runnable(c, defined + Outputs(a) + Outputs(b))
    ensures Sorted([a, b, c], defined) && AllOutputs([a, b, c]) == Outputs(a) + Outputs(b) + Outputs(c)
  {
    SortedPair(b, c, defined + Outputs(a));
    assert [a] + [b, c] == [a, b, c];
    SortedCons(a, [b, c], defined);
  }

  // ---- who writes and who reads --------------------------------------------------------------------

  lemma {:induction false} OutputIn(nodes: seq<Node>, n: Node, o: Name)
    requires n in nodes && o in n.outputs
    ensures o in AllOutputs(nodes)
  {
    if nodes[0] != n {
      OutputIn(nodes[1..], n, o);
    }
  }

  lemma {:induction false} WriterOf(nodes: seq<Node>, o: Name) returns (n: Node)
    requires o in AllOutputs(nodes)
    ensures n in nodes && o in n.outputs
  {
    if o in Outputs(nodes[0]) {
      n := nodes[0];
    } else {
      n := WriterOf(nodes[1..], o);
    }
  }

  /** A node that is still to come defines names that are not defined yet. */
  lemma {:induction false} NotYet(nodes: seq<Node>, defined: set<Name>, node: Node, o: Name)
    requires Sorted(nodes, defined) && node in nodes && o in node.outputs
    ensures o !in defined
  {
    if nodes[0] != node {
      NotYet(nodes[1..], defined + Outputs(nodes[0]), node, o);
    }
  }

  lemma OutputsNotDefined(nodes: seq<Node>, defined: set<Name>)
    requires Sorted(nodes, defined)
    ensures AllOutputs(nodes) !! defined
  {
    forall o | o in AllOutputs(nodes) ensures o !in defined {
      var n := WriterOf(nodes, o);
      NotYet(nodes, defined, n, o);
    }
  }

  lemma {:induction false} OneWriter(nodes: seq<Node>, defined: set<Name>, a: Node, b: Node, o: Name)
    requires Sorted(nodes, defined) && a in nodes && b in nodes && o in a.outputs && o in b.outputs
    ensures a == b
  {
    var next := defined + Outputs(nodes[0]);
    if nodes[0] == a {
      if a != b {
        NotYet(nodes[1..], next, b, o);
      }
    } else if nodes[0] == b {
      NotYet(nodes[1..], next, a, o);
    } else {
      OneWriter(nodes[1..], next, a, b, o);
    }
  }

  lemma {:induction false} ReadInTime(nodes: seq<Node>, defined: set<Name>, n: Node, o: Name)
    requires Sorted(nodes, defined) && n in nodes && o in n.inputs
    ensures o in defined + AllOutputs(nodes) && o !in n.outputs
  {
    if nodes[0] != n {
      ReadInTime(nodes[1..], defined + Outputs(nodes[0]), n, o);
    }
  }

  lemma OnceOnly(nodes: seq<Node>, defined: set<Name>)
    requires nodes != [] && Sorted(nodes, defined) && nodes[0].outputs != []
    ensures nodes[0] !in nodes[1..]
  {
    if nodes[0] in nodes[1..] {
      NotYet(nodes[1..], defined + Outputs(nodes[0]), nodes[0], nodes[0].outputs[0]);
    }
  }

  /** What a later node defines, only later nodes read. */
  lemma ReaderLater(done: seq<Node>, rest: seq<Node>, defined: set<Name>, writer: Node, reader: Node, o: Name)
    requires Sorted(done + rest, defined) && writer in rest && o in writer.outputs
    requires reader in done + rest && o in reader.inputs
    ensures reader in rest && reader != writer
  {
    SortedAppend(done, rest, defined);
    NotYet(rest, defined + AllOutputs(done), writer, o);
    if reader in done {
      ReadInTime(done, defined, reader, o);
    } else {
      ReadInTime(rest, defined + AllOutputs(done), reader, o);
    }
  }

  /** More names do no harm if the list does not define them. */
  lemma {:induction false} SortedWithMore(nodes: seq<Node>, defined: set<Name>, more: set<Name>)
    requires Sorted(nodes, defined) && more !! AllOutputs(nodes)
    ensures Sorted(nodes, defined + more)
  {
    if nodes != [] {
      assert Runnable(nodes[0], defined + more) by {
        forall i | 0 <= i < |nodes[0].outputs| ensures nodes[0].outputs[i] !in more {
          assert nodes[0].outputs[i] in Outputs(nodes[0]);
        }
      }
      assert defined + Outputs(nodes[0]) + more == defined + more + Outputs(nodes[0]);
      SortedWithMore(nodes[1..], defined + Outputs(nodes[0]), more);
    }
  }
}
