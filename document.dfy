/** internal/processor/processor.go, the manifest side: an abstract YAML node
    tree (the fields of yaml.v3's Node that the code reads and writes) and the
    functions that normalise it in place, index its resources sequence and
    refill that sequence. */
module Document {
  import opened Utils

  datatype Kind = DocumentNode | SequenceNode | MappingNode | ScalarNode | AliasNode

  /** A YAML node: its kind, scalar value, tag and children. */
  class Node {
    var kind: Kind
    var value: string
    var tag: string
    var content: seq<Node>

    constructor (kind: Kind, value: string, tag: string)
      ensures this.kind == kind && this.value == value && this.tag == tag
      ensures content == []
    {
      this.kind := kind;
      this.value := value;
      this.tag := tag;
      content := [];
    }
  }

  // ---------------------------------------------------------------------
  // collectExistingResources (processor.go:498-517)

  /** The values of the scalar nodes, in order. */
  function ScalarValues(ns: seq<Node>): seq<string>
    reads ns
  {
    if ns == [] then []
    else (if ns[0].kind == ScalarNode then [ns[0].value] else []) + ScalarValues(ns[1..])
  }

  /** The index of the last scalar node with value `v`, or -1. */
  function LastScalar(ns: seq<Node>, v: string): (k: int)
    reads ns
    ensures -1 <= k < |ns|
  {
    if ns == [] then -1
    else if ns[|ns| - 1].kind == ScalarNode && ns[|ns| - 1].value == v then |ns| - 1
    else LastScalar(ns[..|ns| - 1], v)
  }

  /** What the loop of collectExistingResources keeps after the first `i`
      nodes: `order` and the keys of `nodes` are the values seen so far, in
      first-occurrence order, and each maps to the last node seen with it. */
  ghost predicate CollectedUpTo(ns: seq<Node>, i: nat, nodes: map<string, Node>, order: seq<string>)
    reads ns
    requires i <= |ns|
  {
    && nodes.Keys == Elems(order)
    && order + DedupFrom(ScalarValues(ns[i..]), Elems(order)) == Dedup(ScalarValues(ns))
    && (forall v :: v in nodes ==> 0 <= LastScalar(ns[..i], v) && nodes[v] == ns[LastScalar(ns[..i], v)])
    && (forall v :: v !in nodes ==> LastScalar(ns[..i], v) == -1)
  }

  /** collectExistingResources: the scalar values in first-occurrence order,
      and for each the last scalar node carrying it. */
  method CollectExistingResources(sq: Node) returns (nodes: map<string, Node>, order: seq<string>)
    ensures order == Dedup(ScalarValues(sq.content))
    ensures forall v :: v in nodes <==> v in order
    ensures forall v :: v in nodes ==>
      0 <= LastScalar(sq.content, v) && nodes[v] == sq.content[LastScalar(sq.content, v)]
  {
    var ns := sq.content;
    nodes := map[];
    order := [];
    assert ns[0..] == ns;
    assert Elems(order) == {} && order + Dedup(ScalarValues(ns)) == Dedup(ScalarValues(ns));
    for i := 0 to |ns|
      invariant CollectedUpTo(ns, i, nodes, order)
    {
      var node := ns[i];
      CollectStep(ns, i, nodes, order);
      if node.kind != ScalarNode {
        continue;
      }
      if node.value !in nodes {
        order := order + [node.value];
      }
      nodes := nodes[node.value := node];
    }
    assert ns[..|ns|] == ns;
    assert ns[|ns|..] == [];
    assert order + [] == order;
  }

  /** One iteration of the loop of collectExistingResources
      (processor.go:502-514). */
  lemma CollectStep(ns: seq<Node>, i: nat, nodes: map<string, Node>, order: seq<string>)
    requires i < |ns| && CollectedUpTo(ns, i, nodes, order)
    ensures ns[i].kind != ScalarNode ==> CollectedUpTo(ns, i + 1, nodes, order)
    ensures ns[i].kind == ScalarNode ==>
      CollectedUpTo(ns, i + 1, nodes[ns[i].value := ns[i]],
        if ns[i].value in nodes then order else order + [ns[i].value])
  {
    if ns[i].kind != ScalarNode {
      CollectSkip(ns, i, nodes, order);
    } else {
      CollectScalar(ns, i, nodes, order);
    }
  }

  /** A node that is not a scalar leaves the index as it is. */
  lemma CollectSkip(ns: seq<Node>, i: nat, nodes: map<string, Node>, order: seq<string>)
    requires i < |ns| && CollectedUpTo(ns, i, nodes, order) && ns[i].kind != ScalarNode
    ensures CollectedUpTo(ns, i + 1, nodes, order)
  {
    assert ScalarValues(ns[i..]) == ScalarValues(ns[i + 1..]) by {
      ScalarStep(ns, i);
      assert [] + ScalarValues(ns[i + 1..]) == ScalarValues(ns[i + 1..]);
    }
    forall v { LastScalarStep(ns, i, v); }
  }

  /** A scalar node is indexed under its value, which is appended to the
      order when it is new. */
  lemma CollectScalar(ns: seq<Node>, i: nat, nodes: map<string, Node>, order: seq<string>)
    requires i < |ns| && CollectedUpTo(ns, i, nodes, order) && ns[i].kind == ScalarNode
    ensures CollectedUpTo(ns, i + 1, nodes[ns[i].value := ns[i]],
      if ns[i].value in nodes then order else order + [ns[i].value])
  {
    var node := ns[i];
    var order' := if node.value in nodes then order else order + [node.value];
    var nodes' := nodes[node.value := node];
    assert nodes'.Keys == Elems(order') by {
      assert Elems(order') == Elems(order) + {node.value};
    }
    assert order' + DedupFrom(ScalarValues(ns[i + 1..]), Elems(order')) == Dedup(ScalarValues(ns)) by {
      CollectOrderStep(ns, i, order, node.value in nodes);
    }
    assert && (forall v :: v in nodes' ==> 0 <= LastScalar(ns[..i + 1], v) && nodes'[v] == ns[LastScalar(ns[..i + 1], v)])
           && (forall v :: v !in nodes' ==> LastScalar(ns[..i + 1], v) == -1)
    by {
      CollectIndexStep(ns, i, nodes);
    }
  }

  /** The order after a scalar node: its value is appended when it is new. */
  lemma CollectOrderStep(ns: seq<Node>, i: nat, order: seq<string>, seen: bool)
    requires i < |ns| && ns[i].kind == ScalarNode && seen == (ns[i].value in order)
    requires order + DedupFrom(ScalarValues(ns[i..]), Elems(order)) == Dedup(ScalarValues(ns))
    ensures var order' := if seen then order else order + [ns[i].value];
      order' + DedupFrom(ScalarValues(ns[i + 1..]), Elems(order')) == Dedup(ScalarValues(ns))
  {
    ScalarStep(ns, i);
    DedupStep(order, ns[i].value, ScalarValues(ns[i + 1..]), Dedup(ScalarValues(ns)));
  }

  /** The index after a scalar node: its value leads to it. */
  lemma CollectIndexStep(ns: seq<Node>, i: nat, nodes: map<string, Node>)
    requires i < |ns| && ns[i].kind == ScalarNode
    requires forall v :: v in nodes ==> 0 <= LastScalar(ns[..i], v) && nodes[v] == ns[LastScalar(ns[..i], v)]
    requires forall v :: v !in nodes ==> LastScalar(ns[..i], v) == -1
    ensures var nodes' := nodes[ns[i].value := ns[i]];
      && (forall v :: v in nodes' ==> 0 <= LastScalar(ns[..i + 1], v) && nodes'[v] == ns[LastScalar(ns[..i + 1], v)])
      && (forall v :: v !in nodes' ==> LastScalar(ns[..i + 1], v) == -1)
  {
    forall v { LastScalarStep(ns, i, v); }
  }

  lemma ScalarStep(ns: seq<Node>, i: nat)
    requires i < |ns|
    ensures ScalarValues(ns[i..]) ==
      (if ns[i].kind == ScalarNode then [ns[i].value] else []) + ScalarValues(ns[i + 1..])
  {
    assert ns[i..][0] == ns[i] && ns[i..][1..] == ns[i + 1..];
  }

  lemma LastScalarStep(ns: seq<Node>, i: nat, v: string)
    requires i < |ns|
    ensures LastScalar(ns[..i + 1], v) == if ns[i].kind == ScalarNode && ns[i].value == v then i else LastScalar(ns[..i], v)
  {
    var p := ns[..i + 1];
    assert p[|p| - 1] == ns[i] && p[..|p| - 1] == ns[..i];
  }

  /** The index is duplicate-free and holds exactly the scalar values; each
      value leads to a scalar node with that value after which no scalar node
      carries it (processor.go:498-517). */
  lemma CollectedFacts(ns: seq<Node>, v: string)
    ensures Distinct(Dedup(ScalarValues(ns)))
    ensures v in Dedup(ScalarValues(ns)) <==> v in ScalarValues(ns)
    ensures (LastScalar(ns, v) >= 0) <==> v in ScalarValues(ns)
    ensures var k := LastScalar(ns, v);
      k >= 0 ==> (ns[k].kind == ScalarNode && ns[k].value == v &&
        forall j :: k < j < |ns| ==> !(ns[j].kind == ScalarNode && ns[j].value == v))
  {
    DedupDistinct(ScalarValues(ns));
    DedupSameElements(ScalarValues(ns));
    assert v in Elems(Dedup(ScalarValues(ns))) <==> v in Dedup(ScalarValues(ns));
    LastScalarFacts(ns, v);
  }

  lemma {:induction false} LastScalarFacts(ns: seq<Node>, v: string)
    ensures (LastScalar(ns, v) >= 0) <==> v in ScalarValues(ns)
    ensures var k := LastScalar(ns, v);
      k >= 0 ==> (ns[k].kind == ScalarNode && ns[k].value == v &&
        forall j :: k < j < |ns| ==> !(ns[j].kind == ScalarNode && ns[j].value == v))
    decreases |ns|
  {
    if ns != [] {
      var init := ns[..|ns| - 1];
      var last := ns[|ns| - 1];
      LastScalarFacts(init, v);
      assert ns == init + [last];
      ScalarValuesConcat(init, [last]);
      assert [last][1..] == [];
    }
  }

  lemma {:induction false} ScalarValuesConcat(a: seq<Node>, b: seq<Node>)
    ensures ScalarValues(a + b) == ScalarValues(a) + ScalarValues(b)
    decreases |a|
  {
    if a == [] {
      assert a + b == b;
    } else {
      assert (a + b)[0] == a[0] && (a + b)[1..] == a[1..] + b;
      ScalarValuesConcat(a[1..], b);
    }
  }

  /** A node that is not a scalar takes no part in the index
      (processor.go:503-506; processor_test.go:321-338). */
  lemma NonScalarIgnored(a: seq<Node>, n: Node, b: seq<Node>)
    requires n.kind != ScalarNode
    ensures ScalarValues(a + [n] + b) == ScalarValues(a + b)
  {
    ScalarValuesConcat(a + [n], b);
    ScalarValuesConcat(a, [n]);
    ScalarValuesConcat(a, b);
    assert [n][1..] == [];
  }

  // ---------------------------------------------------------------------
  // ensureHeader (processor.go:477-495)

  predicate IsHeaderKey(key: string) {
    key == "apiVersion" || key == "kind"
  }

  /** Some key of the mapping, at an even index, is apiVersion or kind. */
  predicate HasHeaderKey(ns: seq<Node>)
    reads ns
  {
    exists i :: 0 <= i < |ns| && i % 2 == 0 && IsHeaderKey(ns[i].value)
  }

  /** The four scalars ensureHeader prepends (processor.go:487-492). */
  const HeaderValues: seq<string> := ["apiVersion", "kustomize.config.k8s.io/v1beta1", "kind", "Kustomization"]

  /** ensureHeader: a mapping without an apiVersion or kind key gains the
      canonical header in front of its content; any other is left alone. */
  method EnsureHeader(mapNode: Node)
    modifies mapNode
    ensures mapNode.kind == old(mapNode.kind) && mapNode.value == old(mapNode.value) && mapNode.tag == old(mapNode.tag)
    ensures old(HasHeaderKey(mapNode.content)) ==> mapNode.content == old(mapNode.content)
    ensures !old(HasHeaderKey(mapNode.content)) ==>
      |mapNode.content| == |old(mapNode.content)| + 4 &&
      mapNode.content[4..] == old(mapNode.content) &&
      forall k :: 0 <= k < 4 ==>
        fresh(mapNode.content[k]) && mapNode.content[k].kind == ScalarNode &&
        mapNode.content[k].value == HeaderValues[k] && mapNode.content[k].tag == "!!str" &&
        mapNode.content[k].content == []
    ensures HasHeaderKey(mapNode.content)
  {
    var i := 0;
    while i < |mapNode.content|
      invariant 0 <= i && i % 2 == 0
      invariant forall j :: 0 <= j < i && j < |mapNode.content| && j % 2 == 0 ==> !IsHeaderKey(mapNode.content[j].value)
      decreases |mapNode.content| - i
    {
      if IsHeaderKey(mapNode.content[i].value) {
        return;
      }
      i := i + 2;
    }
    var apiKey := new Node(ScalarNode, "apiVersion", "!!str");
    var apiValue := new Node(ScalarNode, "kustomize.config.k8s.io/v1beta1", "!!str");
    var kindKey := new Node(ScalarNode, "kind", "!!str");
    var kindValue := new Node(ScalarNode, "Kustomization", "!!str");
    var header := [apiKey, apiValue, kindKey, kindValue];
    mapNode.content := header + mapNode.content;
    assert mapNode.content[0].value == "apiVersion";
  }

  // ---------------------------------------------------------------------
  // ensureResourcesSeq (processor.go:444-474)

  /** The index of the first key, at an even index from `i` on and followed by
      a value, that reads "resources"; -1 if there is none. */
  function ResourcesFrom(ns: seq<Node>, i: nat): (k: int)
    reads ns
    ensures k == -1 || (i <= k && k + 1 < |ns|)
    decreases |ns| - i
  {
    if i + 1 >= |ns| then -1
    else if ns[i].value == "resources" then i
    else ResourcesFrom(ns, i + 2)
  }

  function ResourcesKey(ns: seq<Node>): (k: int)
    reads ns
    ensures k == -1 || (0 <= k && k + 1 < |ns|)
  {
    ResourcesFrom(ns, 0)
  }

  /** The value node ensureResourcesSeq reuses, if any. */
  function ResourcesValue(ns: seq<Node>): set<Node>
    reads ns
  {
    var k := ResourcesKey(ns);
    if k >= 0 then {ns[k + 1]} else {}
  }

  /** The key found is the first "resources" key of a complete pair at an
      even index; when none is found there is no such key
      (processor.go:446-458). */
  lemma {:induction false} ResourcesFromFacts(ns: seq<Node>, i: nat)
    requires i % 2 == 0
    ensures var k := ResourcesFrom(ns, i);
      (k >= 0 ==> k % 2 == 0 && ns[k].value == "resources") &&
      forall j :: i <= j && j % 2 == 0 && j + 1 < |ns| && (k == -1 || j < k) ==> ns[j].value != "resources"
    decreases |ns| - i
  {
    if i + 1 < |ns| && ns[i].value != "resources" {
      ResourcesFromFacts(ns, i + 2);
    }
  }

  lemma ResourcesKeyFacts(ns: seq<Node>)
    ensures var k := ResourcesKey(ns);
      (k >= 0 ==> k % 2 == 0 && ns[k].value == "resources") &&
      forall j :: 0 <= j && j % 2 == 0 && j + 1 < |ns| && (k == -1 || j < k) ==> ns[j].value != "resources"
  {
    ResourcesFromFacts(ns, 0);
  }

  /** The values of the nodes, in order: all that the key scan looks at. */
  function Values(ns: seq<Node>): (vs: seq<string>)
    reads ns
    ensures |vs| == |ns| && forall j :: 0 <= j < |ns| ==> vs[j] == ns[j].value
  {
    if ns == [] then [] else [ns[0].value] + Values(ns[1..])
  }

  lemma ValuesEqual(ns: seq<Node>, vs: seq<string>)
    requires |ns| == |vs| && forall j :: 0 <= j < |ns| ==> ns[j].value == vs[j]
    ensures Values(ns) == vs
  {
  }

  /** ResourcesFrom on the values of the nodes alone. */
  function KeyFrom(vs: seq<string>, i: nat): int
    decreases |vs| - i
  {
    if i + 1 >= |vs| then -1
    else if vs[i] == "resources" then i
    else KeyFrom(vs, i + 2)
  }

  /** The key scan depends on the values of the nodes and nothing else. */
  lemma {:induction false} ResourcesFromValues(ns: seq<Node>, i: nat)
    ensures ResourcesFrom(ns, i) == KeyFrom(Values(ns), i)
    decreases |ns| - i
  {
    if i + 1 < |ns| && ns[i].value != "resources" {
      ResourcesFromValues(ns, i + 2);
    }
  }

  /** On an even number of values without a resources key, an appended
      resources pair is the one found. */
  lemma {:induction false} KeyFromAppend(vs: seq<string>, tail: seq<string>, i: nat)
    requires i % 2 == 0 && i <= |vs| && |vs| % 2 == 0 && KeyFrom(vs, i) == -1
    requires |tail| == 2 && tail[0] == "resources"
    ensures KeyFrom(vs + tail, i) == |vs|
    decreases |vs| - i
  {
    if i < |vs| {
      assert (vs + tail)[i] == vs[i];
      KeyFromAppend(vs, tail, i + 2);
    }
  }

  /** ensureResourcesSeq on the mapping node `mapNode` (the first child of
      the document): the value of the first resources key is reused, or else
      a resources key and an empty sequence are appended; the value is then
      made a sequence and indexed. */
  method EnsureResourcesSeq(mapNode: Node) returns (sq: Node, order: seq<string>, nodes: map<string, Node>)
    modifies mapNode, ResourcesValue(mapNode.content)
    ensures var c := old(mapNode.content);
      var k := old(ResourcesKey(mapNode.content));
      && (k >= 0 ==>
        sq == c[k + 1] && mapNode.content == c &&
        sq.content == old(sq.content) && sq.value == old(sq.value) && sq.tag == old(sq.tag))
      && (k == -1 ==>
        |mapNode.content| == |c| + 2 && mapNode.content[..|c|] == c &&
        IsResourcesKey(mapNode.content[|c|]) && fresh(mapNode.content[|c|]) &&
        mapNode.content[|c| + 1] == sq && fresh(sq) && sq.content == [] && sq.value == "" && sq.tag == "")
    ensures mapNode.value == old(mapNode.value) && mapNode.tag == old(mapNode.tag)
    ensures sq != mapNode ==> mapNode.kind == old(mapNode.kind)
    ensures sq.kind == SequenceNode
    ensures old(|mapNode.content|) % 2 == 0 ==> Reloads(mapNode.content, sq)
    ensures forall n :: n in mapNode.content && n !in old(mapNode.content) ==> fresh(n)
    ensures forall n :: n in old(mapNode.content) && n != sq && n != mapNode ==> unchanged(n)
    ensures order == Dedup(ScalarValues(sq.content))
    ensures forall v :: v in nodes <==> v in order
    ensures forall v :: v in nodes ==>
      0 <= LastScalar(sq.content, v) && nodes[v] == sq.content[LastScalar(sq.content, v)]
  {
    ghost var k := ResourcesKey(mapNode.content);
    var i := 0;
    var found := false;
    while i < |mapNode.content|
      invariant 0 <= i && i % 2 == 0
      invariant !found && ResourcesFrom(mapNode.content, i) == k
      decreases |mapNode.content| - i
    {
      if i + 1 >= |mapNode.content| {
        break;
      }
      if mapNode.content[i].value == "resources" {
        sq := mapNode.content[i + 1];
        found := true;
        break;
      }
      i := i + 2;
    }
    assert found ==> k == i && sq == mapNode.content[k + 1];
    assert !found ==> k == -1;
    if !found {
      sq := AppendResources(mapNode);
    } else {
      ReloadsFromKey(mapNode.content, sq, 0);
    }
    MakeSequence(sq, mapNode.content);
    nodes, order := CollectExistingResources(sq);
  }

  /** A resources key and a fresh empty sequence are appended to the
      mapping (processor.go:461-465). On an even number of children without a
      resources key, reading the mapping again finds the new pair. */
  method AppendResources(mapNode: Node) returns (sq: Node)
    modifies mapNode
    ensures var c := old(mapNode.content);
      |mapNode.content| == |c| + 2 && mapNode.content[..|c|] == c &&
      IsResourcesKey(mapNode.content[|c|]) && fresh(mapNode.content[|c|]) &&
      mapNode.content[|c| + 1] == sq && fresh(sq) &&
      sq.kind == SequenceNode && sq.content == [] && sq.value == "" && sq.tag == ""
    ensures mapNode.kind == old(mapNode.kind) && mapNode.value == old(mapNode.value) && mapNode.tag == old(mapNode.tag)
    ensures old(ResourcesKey(mapNode.content)) == -1 && old(|mapNode.content|) % 2 == 0 ==>
      Reloads(mapNode.content, sq)
  {
    ghost var c := mapNode.content;
    ghost var vs := Values(c);
    ResourcesFromValues(c, 0);
    sq := new Node(SequenceNode, "", "");
    var keyNode := new Node(ScalarNode, "resources", "!!str");
    mapNode.content := mapNode.content + [keyNode, sq];
    ghost var now := vs + ["resources", ""];
    forall j | 0 <= j < |mapNode.content|
      ensures mapNode.content[j].value == now[j]
    {
      if j < |c| {
        assert mapNode.content[j] == c[j];
      }
    }
    ValuesEqual(mapNode.content, now);
    if KeyFrom(vs, 0) == -1 && |c| % 2 == 0 {
      AppendedReloads(mapNode.content, vs, sq);
    }
  }

  /** A resources pair appended behind pairs holding no resources key is
      what a reload finds. */
  lemma AppendedReloads(m: seq<Node>, vs: seq<string>, sq: Node)
    requires Values(m) == vs + ["resources", ""] && m[|vs| + 1] == sq
    requires KeyFrom(vs, 0) == -1 && |vs| % 2 == 0
    ensures Reloads(m, sq)
  {
    KeyFromAppend(vs, ["resources", ""], 0);
    ResourcesFromValues(m, 0);
    ReloadsFromKey(m, sq, 0);
  }

  /** The resources value is made a sequence node (processor.go:468-470);
      reading the mapping `m` again still finds it. */
  method MakeSequence(sq: Node, ghost m: seq<Node>)
    modifies sq
    ensures sq.kind == SequenceNode
    ensures sq.value == old(sq.value) && sq.tag == old(sq.tag) && sq.content == old(sq.content)
    ensures old(Reloads(m, sq)) ==> Reloads(m, sq)
  {
    ghost var vs := Values(m);
    ResourcesFromValues(m, 0);
    ReloadsFromKey(m, sq, 0);
    if sq.kind != SequenceNode {
      sq.kind := SequenceNode;
    }
    forall j | 0 <= j < |m|
      ensures m[j].value == vs[j]
    {
    }
    ValuesEqual(m, vs);
    ResourcesFromValues(m, 0);
    ReloadsFromKey(m, sq, 0);
  }

  /** The key node ensureResourcesSeq appends (processor.go:463). */
  predicate IsResourcesKey(n: Node)
    reads n
  {
    n.kind == ScalarNode && n.value == "resources" && n.tag == "!!str" && n.content == []
  }

  // ---------------------------------------------------------------------
  // loadKustomization, after parsing (processor.go:424-440)

  /** The first child of the document, if it has one. */
  function FirstChild(root: Node): set<Node>
    reads root
  {
    if |root.content| > 0 then {root.content[0]} else {}
  }

  /** The children of the mapping node, if the document has one. */
  function MappingChildren(root: Node): seq<Node>
    reads root, root.content
  {
    if |root.content| > 0 then root.content[0].content else []
  }

  /** The children of the first resources value among the pairs `ns`: the
      nodes collectExistingResources reads. */
  function ResourcesContent(ns: seq<Node>): seq<Node>
    reads ns
  {
    var k := ResourcesKey(ns);
    if k >= 0 then ns[k + 1].content else []
  }

  /** The resource list loadKustomization extracts from a mapping with the
      children `ns`: the scalar values of the first resources value in
      first-occurrence order, and none without a resources key
      (processor.go:444-474, 498-517). */
  function ExistingResources(ns: seq<Node>): seq<string>
    reads ns, ResourcesContent(ns)
  {
    Dedup(ScalarValues(ResourcesContent(ns)))
  }

  /** Scanning the pairs `m` from index `i` on, as ensureResourcesSeq does,
      finds `sq` as the value of the first resources key. */
  predicate ReloadsFrom(m: seq<Node>, sq: Node, i: nat)
    reads m
    decreases |m| - i
  {
    if i + 1 >= |m| then false
    else if m[i].value == "resources" then m[i + 1] == sq
    else ReloadsFrom(m, sq, i + 2)
  }

  /** Reading the mapping `m` again finds `sq` as its resources value. */
  predicate Reloads(m: seq<Node>, sq: Node)
    reads m
  {
    ReloadsFrom(m, sq, 0)
  }

  /** The scan finds `sq` exactly when the first resources key from `i` on
      is followed by `sq`. */
  lemma {:induction false} ReloadsFromKey(m: seq<Node>, sq: Node, i: nat)
    ensures ReloadsFrom(m, sq, i) <==> ResourcesFrom(m, i) >= 0 && m[ResourcesFrom(m, i) + 1] == sq
    decreases |m| - i
  {
    if i + 1 < |m| && m[i].value != "resources" {
      ReloadsFromKey(m, sq, i + 2);
    }
  }

  /** What a reload then extracts is the list `sq` holds. */
  lemma ReloadsList(m: seq<Node>, sq: Node)
    requires Reloads(m, sq)
    ensures ResourcesContent(m) == sq.content
    ensures ExistingResources(m) == Dedup(ScalarValues(sq.content))
  {
    ReloadsFromKey(m, sq, 0);
  }

  /** The document node, its mapping and the mapping's resources value are
      not reachable again from below, as in any tree yaml.Unmarshal builds:
      the root is not a child of itself or of the mapping, the mapping is not
      its own child, and the children of the resources value are none of the
      three. */
  predicate NoBackReference(root: Node)
    reads root, root.content, MappingChildren(root)
  {
    && root !in root.content
    && (|root.content| > 0 ==>
      var m := root.content[0];
      var rc := ResourcesContent(m.content);
      && root !in m.content && m !in m.content && root !in rc && m !in rc
      && (ResourcesKey(m.content) >= 0 ==> m.content[ResourcesKey(m.content) + 1] !in rc))
  }

  /** The children `now` of the mapping are its former children `c`, behind
      four nodes when `header` holds, and followed by `tail`. */
  predicate Spliced(now: seq<Node>, c: seq<Node>, header: bool, tail: seq<Node>) {
    var h := if header then 4 else 0;
    && |now| == h + |c| + |tail|
    && now[h..h + |c|] == c && now[h + |c|..] == tail
  }

  /** The four scalars ensureHeader prepends (processor.go:487-492). */
  predicate IsHeader(hs: seq<Node>)
    reads hs
  {
    |hs| == 4 &&
    forall i :: 0 <= i < 4 ==>
      hs[i].kind == ScalarNode && hs[i].value == HeaderValues[i] && hs[i].tag == "!!str" && hs[i].content == []
  }

  /** The layout loadKustomization gives the mapping's children: the header
      when there was none, the former children `c`, then `tail`. */
  ghost predicate Laid(now: seq<Node>, c: seq<Node>, header: bool, tail: seq<Node>)
    reads if header && |now| >= 4 then now[..4] else []
  {
    Spliced(now, c, header, tail) && (header ==> IsHeader(now[..4]))
  }

  /** The first steps of the normalisation: the root becomes a document
      holding a mapping, a fresh empty one when the document is empty
      (processor.go:424-437). */
  method NormalizeDocument(root: Node) returns (mapNode: Node)
    requires NoBackReference(root)
    modifies root, FirstChild(root)
    ensures root.kind == DocumentNode && |root.content| >= 1 && root.content[0] == mapNode
    ensures old(|root.content|) > 0 ==> root.content == old(root.content)
    ensures old(|root.content|) == 0 ==>
      |root.content| == 1 && fresh(mapNode) && mapNode.content == [] && mapNode.value == "" && mapNode.tag == ""
    ensures old(|root.content|) > 0 ==>
      mapNode.value == old(root.content[0].value) && mapNode.tag == old(root.content[0].tag)
    ensures root.value == old(root.value) && root.tag == old(root.tag)
    ensures mapNode.kind == MappingNode && mapNode.content == old(MappingChildren(root))
    ensures forall n :: n in old(MappingChildren(root)) ==> unchanged(n)
    ensures ResourcesValue(mapNode.content) == old(ResourcesValue(MappingChildren(root)))
    ensures ResourcesContent(mapNode.content) == old(ResourcesContent(MappingChildren(root)))
    ensures ExistingResources(mapNode.content) == old(ExistingResources(MappingChildren(root)))
    ensures root !in mapNode.content && mapNode !in mapNode.content
    ensures var rc := ResourcesContent(mapNode.content);
      root !in rc && mapNode !in rc && forall v :: v in ResourcesValue(mapNode.content) ==> v !in rc
  {
    ghost var c := MappingChildren(root);
    if root.kind != DocumentNode {
      SetKind(root, DocumentNode, c);
    }
    if |root.content| == 0 {
      var m := new Node(MappingNode, "", "");
      root.content := [m];
    }
    mapNode := root.content[0];
    if mapNode.kind != MappingNode {
      SetKind(mapNode, MappingNode, c);
    }
  }

  /** The kind of the root or of its first child is set (processor.go:423-425,
      433-435); the resources of the pairs `c`, in which `n` takes no part,
      read as before. */
  method SetKind(n: Node, kind: Kind, ghost c: seq<Node>)
    requires n !in c && n !in ResourcesContent(c)
    modifies n
    ensures n.kind == kind && n.value == old(n.value) && n.tag == old(n.tag) && n.content == old(n.content)
    ensures ResourcesValue(c) == old(ResourcesValue(c)) && ResourcesContent(c) == old(ResourcesContent(c))
    ensures ExistingResources(c) == old(ExistingResources(c))
  {
    n.kind := kind;
  }

  /** normalizeDocument followed by ensureHeader: the root is a document
      whose first child is a mapping with a header key; the mapping holds its
      former children, behind a fresh header when it had no header key, and
      those children and their resources value are left as they were
      (processor.go:424-438). */
  method PrepareMapping(root: Node) returns (mapNode: Node)
    requires NoBackReference(root)
    modifies root, FirstChild(root)
    ensures root.kind == DocumentNode && |root.content| >= 1 && root.content[0] == mapNode
    ensures old(|root.content|) > 0 ==> root.content == old(root.content)
    ensures old(|root.content|) == 0 ==> fresh(mapNode) && mapNode.value == "" && mapNode.tag == ""
    ensures old(|root.content|) > 0 ==>
      mapNode.value == old(root.content[0].value) && mapNode.tag == old(root.content[0].tag)
    ensures root.value == old(root.value) && root.tag == old(root.tag)
    ensures mapNode.kind == MappingNode && HasHeaderKey(mapNode.content)
    ensures Laid(mapNode.content, old(MappingChildren(root)), !old(HasHeaderKey(MappingChildren(root))), [])
    ensures !old(HasHeaderKey(MappingChildren(root))) ==> forall i :: 0 <= i < 4 ==> fresh(mapNode.content[i])
    ensures forall n :: n in mapNode.content && n !in old(MappingChildren(root)) ==> fresh(n)
    ensures forall n :: n in old(MappingChildren(root)) ==> n in mapNode.content && unchanged(n)
    ensures ResourcesValue(mapNode.content) == old(ResourcesValue(MappingChildren(root)))
    ensures ResourcesContent(mapNode.content) == old(ResourcesContent(MappingChildren(root)))
    ensures ExistingResources(mapNode.content) == old(ExistingResources(MappingChildren(root)))
    ensures root !in mapNode.content && mapNode !in mapNode.content
    ensures var rc := ResourcesContent(mapNode.content);
      root !in rc && mapNode !in rc && forall v :: v in ResourcesValue(mapNode.content) ==> v !in rc
  {
    ghost var c := MappingChildren(root);
    mapNode := NormalizeDocument(root);
    AddHeader(mapNode, c);
  }

  /** ensureHeader on a mapping whose children are `c`, stated over `c`: the
      children are kept, behind the fresh header when one is added, and so
      are their resources value and its children. */
  method AddHeader(mapNode: Node, ghost c: seq<Node>)
    requires mapNode.content == c && mapNode !in c && mapNode !in ResourcesContent(c)
    modifies mapNode
    ensures mapNode.kind == old(mapNode.kind) && mapNode.value == old(mapNode.value) && mapNode.tag == old(mapNode.tag)
    ensures HasHeaderKey(mapNode.content)
    ensures Laid(mapNode.content, c, !old(HasHeaderKey(c)), [])
    ensures !old(HasHeaderKey(c)) ==> forall i :: 0 <= i < 4 ==> fresh(mapNode.content[i])
    ensures forall n :: n in mapNode.content && n !in c ==> fresh(n)
    ensures forall n :: n in c ==> n in mapNode.content
    ensures ResourcesValue(mapNode.content) == old(ResourcesValue(c))
    ensures ResourcesContent(mapNode.content) == old(ResourcesContent(c))
    ensures ExistingResources(mapNode.content) == old(ExistingResources(c))
  {
    ghost var header := !HasHeaderKey(c);
    ghost var rc := ResourcesContent(c);
    EnsureHeader(mapNode);
    if !header {
      assert mapNode.content[0..|c|] == c;
    }
    HeaderShift(mapNode.content, c, header);
    assert ScalarValues(rc) == old(ScalarValues(rc));
  }

  /** The shape loadKustomization leaves behind: a document whose first child
      is a mapping with a header key, holding the resources sequence `sq`. */
  ghost predicate Shaped(root: Node, sq: Node)
    reads root, root.content, MappingChildren(root)
  {
    && root.kind == DocumentNode && |root.content| >= 1
    && var m := root.content[0];
      m.kind == MappingNode && HasHeaderKey(m.content) && sq in m.content && sq.kind == SequenceNode
  }

  /** The layout loadKustomization leaves, stated against the mapping's former
      children `c`: behind the header when one was added, they are all the
      children when the resources value `sq` was reused in place (`reused`),
      and otherwise they are followed by a resources key and `sq`. */
  ghost predicate Placed(root: Node, sq: Node, c: seq<Node>, header: bool, reused: bool)
    reads root, root.content, MappingChildren(root)
  {
    && Shaped(root, sq)
    && var m := root.content[0].content;
      && (reused ==> Laid(m, c, header, []))
      && (!reused ==> |m| >= 2 && IsResourcesKey(m[|m| - 2]) && Laid(m, c, header, [m[|m| - 2], sq]))
  }

  /** An appended resources sequence is the mapping's last child. */
  lemma PlacedLast(root: Node, sq: Node, c: seq<Node>, header: bool)
    requires Placed(root, sq, c, header, false)
    ensures var m := root.content[0].content; |m| >= 1 && m[|m| - 1] == sq
  {
    var m := root.content[0].content;
    assert m[|m| - 2..][1] == sq;
  }

  /** The normalisation part of loadKustomization: `root` is the parsed
      document, or a fresh empty node when the manifest does not exist
      (processor.go:403-441). The root ends up a document whose first child is
      a mapping with a header and a resources sequence, which is indexed. The
      existing resource list is extracted; the first resources value is
      reused with its children, or a resources pair is appended; every other
      former child of the mapping is left as it was. */
  method NormalizeKustomization(root: Node) returns (sq: Node, order: seq<string>, nodes: map<string, Node>)
    requires NoBackReference(root)
    modifies root, FirstChild(root), ResourcesValue(MappingChildren(root))
    ensures root.kind == DocumentNode && |root.content| >= 1
    ensures old(|root.content|) > 0 ==> root.content == old(root.content)
    ensures root.value == old(root.value) && root.tag == old(root.tag)
    ensures old(|root.content|) == 0 ==>
      fresh(root.content[0]) && root.content[0].value == "" && root.content[0].tag == ""
    ensures old(|root.content|) > 0 ==>
      root.content[0].value == old(root.content[0].value) && root.content[0].tag == old(root.content[0].tag)
    ensures Shaped(root, sq)
    ensures var v := old(ResourcesValue(MappingChildren(root)));
      Placed(root, sq, old(MappingChildren(root)), !old(HasHeaderKey(MappingChildren(root))), v != {})
    ensures var v := old(ResourcesValue(MappingChildren(root)));
      && (v != {} ==> v == {sq} && sq.value == old(sq.value) && sq.tag == old(sq.tag))
      && (v == {} ==> fresh(sq) && sq.content == [] && sq.value == "" && sq.tag == "")
    ensures sq.content == old(ResourcesContent(MappingChildren(root))) && sq !in sq.content
    ensures old(|MappingChildren(root)|) % 2 == 0 ==> Reloads(root.content[0].content, sq)
    ensures forall n :: n in root.content[0].content && n !in old(MappingChildren(root)) ==> fresh(n)
    ensures forall n :: n in old(MappingChildren(root)) && n != sq ==> unchanged(n)
    ensures order == old(ExistingResources(MappingChildren(root)))
    ensures order == Dedup(ScalarValues(sq.content))
    ensures forall v :: v in nodes <==> v in order
    ensures forall v :: v in nodes ==>
      0 <= LastScalar(sq.content, v) && nodes[v] == sq.content[LastScalar(sq.content, v)]
  {
    ghost var c := MappingChildren(root);
    ghost var header := !HasHeaderKey(c);
    var mapNode := PrepareMapping(root);
    HeaderParity(|c|, header);
    ghost var even := |mapNode.content| % 2 == 0;
    assert |c| % 2 == 0 ==> even;
    sq, order, nodes := AttachResources(mapNode, c, header);
    assert root.content[0] == mapNode;
    assert |c| % 2 == 0 ==> Reloads(mapNode.content, sq);
  }

  /** Prepending the four header scalars shifts the resources key past them. */
  lemma HeaderShift(now: seq<Node>, c: seq<Node>, header: bool)
    requires Laid(now, c, header, [])
    ensures var k := ResourcesKey(c);
      ResourcesKey(now) == (if k == -1 then -1 else (if header then 4 else 0) + k)
      && ResourcesValue(now) == ResourcesValue(c) && ResourcesContent(now) == ResourcesContent(c)
  {
    if header {
      assert now == now[..4] + c;
      assert now[0].value == HeaderValues[0] == "apiVersion";
      assert now[2].value == HeaderValues[2] == "kind";
      assert ResourcesKey(now) == ResourcesFrom(now, 2) == ResourcesFrom(now, 4);
      ResourcesFromShift(now[..4], c, 0);
    } else {
      assert now == c;
    }
  }

  lemma {:induction false} ResourcesFromShift(p: seq<Node>, c: seq<Node>, i: nat)
    ensures var k := ResourcesFrom(c, i);
      ResourcesFrom(p + c, |p| + i) == if k == -1 then -1 else |p| + k
    decreases |c| - i
  {
    if i < |c| {
      assert (p + c)[|p| + i] == c[i];
    }
    if i + 1 < |c| && c[i].value != "resources" {
      ResourcesFromShift(p, c, i + 2);
    }
  }

  /** ensureResourcesSeq on a mapping laid out as `c` behind an optional
      header: the first resources value is reused with its children and made
      a sequence, or a resources pair is appended; the list is extracted and
      every other child is left as it was. */
  method AttachResources(mapNode: Node, ghost c: seq<Node>, ghost header: bool)
    returns (sq: Node, order: seq<string>, nodes: map<string, Node>)
    requires HasHeaderKey(mapNode.content) && mapNode !in mapNode.content
    requires Laid(mapNode.content, c, header, [])
    requires header ==> forall i :: 0 <= i < 4 ==> mapNode.content[i] !in ResourcesValue(mapNode.content)
    requires var rc := ResourcesContent(mapNode.content);
      mapNode !in rc && forall v :: v in ResourcesValue(mapNode.content) ==> v !in rc
    modifies mapNode, ResourcesValue(mapNode.content)
    ensures mapNode.kind == old(mapNode.kind) && HasHeaderKey(mapNode.content)
    ensures mapNode.value == old(mapNode.value) && mapNode.tag == old(mapNode.tag)
    ensures sq in mapNode.content && sq.kind == SequenceNode
    ensures var v := old(ResourcesValue(mapNode.content)); var m := mapNode.content;
      && (v != {} ==>
        v == {sq} && m == old(mapNode.content) && Laid(m, c, header, []) &&
        sq.content == old(sq.content) && sq.value == old(sq.value) && sq.tag == old(sq.tag))
      && (v == {} ==>
        fresh(sq) && sq.content == [] && sq.value == "" && sq.tag == "" &&
        |m| >= 2 && IsResourcesKey(m[|m| - 2]) && fresh(m[|m| - 2]) &&
        Laid(m, c, header, [m[|m| - 2], sq]))
    ensures sq.content == old(ResourcesContent(mapNode.content)) && sq !in sq.content
    ensures old(|mapNode.content|) % 2 == 0 ==> Reloads(mapNode.content, sq)
    ensures forall n :: n in mapNode.content && n !in old(mapNode.content) ==> fresh(n)
    ensures forall n :: n in old(mapNode.content) && n != sq ==> unchanged(n)
    ensures order == old(ExistingResources(mapNode.content))
    ensures order == Dedup(ScalarValues(sq.content))
    ensures forall v :: v in nodes <==> v in order
    ensures forall v :: v in nodes ==>
      0 <= LastScalar(sq.content, v) && nodes[v] == sq.content[LastScalar(sq.content, v)]
  {
    ghost var after := mapNode.content;
    ghost var j :| 0 <= j < |after| && j % 2 == 0 && IsHeaderKey(after[j].value);
    ghost var headerKey := after[j];
    ghost var key := headerKey.value;
    ghost var rc := ResourcesContent(after);
    ghost var value := ResourcesValue(after);
    assert forall n :: n in value ==> n in after;
    sq, order, nodes := EnsureResourcesSeq(mapNode);
    assert sq != mapNode by {
      assert sq in after || fresh(sq);
    }
    assert headerKey.value == key by {
      if headerKey == mapNode {
      } else if headerKey == sq {
      }
    }
    assert mapNode.content[j] == headerKey by {
      assert mapNode.content[..|after|] == after;
    }
    if header {
      assert mapNode.content[..4] == after[..4];
      assert IsHeader(after[..4]);
    }
    assert Laid(after, c, header, []);
    if value != {} {
      assert mapNode.content == after && sq in after;
      assert ScalarValues(rc) == old(ScalarValues(rc));
    } else {
      var tail := [mapNode.content[|after|], sq];
      assert mapNode.content == after + tail;
      LaidAppend(after, c, header, tail);
    }
  }

  /** The header has an even number of nodes, so the pairs keep their parity. */
  lemma HeaderParity(n: nat, header: bool)
    ensures ((if header then 4 else 0) + n) % 2 == n % 2
  {
  }

  /** Appending to a laid-out mapping keeps the layout, with the new tail. */
  lemma LaidAppend(now: seq<Node>, c: seq<Node>, header: bool, tail: seq<Node>)
    requires Laid(now, c, header, [])
    ensures Laid(now + tail, c, header, tail)
  {
    if header {
      assert (now + tail)[..4] == now[..4];
    }
    var h := if header then 4 else 0;
    assert (now + tail)[h..h + |c|] == now[h..h + |c|];
  }

  // ---------------------------------------------------------------------
  // the content-building part of updateKustomization (processor.go:241-255)

  /** The sequence is refilled with one node per entry of `final`: the node
      indexed under that entry when there is one, otherwise a fresh plain
      string scalar. When the index maps each value to a scalar carrying it,
      the sequence then reads exactly `final`. */
  method FillSequence(sq: Node, final: seq<string>, nodes: map<string, Node>, ghost m: seq<Node>)
    modifies sq
    ensures old(Reloads(m, sq)) ==> Reloads(m, sq)
    ensures sq.kind == old(sq.kind) && sq.value == old(sq.value) && sq.tag == old(sq.tag)
    ensures |sq.content| == |final|
    ensures forall i :: 0 <= i < |final| && final[i] in nodes ==> sq.content[i] == nodes[final[i]]
    ensures forall i :: 0 <= i < |final| && final[i] !in nodes ==>
      fresh(sq.content[i]) && sq.content[i].kind == ScalarNode && sq.content[i].value == final[i] &&
      sq.content[i].tag == "!!str" && sq.content[i].content == []
    ensures (forall v :: v in nodes ==> nodes[v].kind == ScalarNode && nodes[v].value == v) ==>
      ScalarValues(sq.content) == final
  {
    var content: seq<Node> := [];
    for i := 0 to |final|
      invariant |content| == i && unchanged(sq)
      invariant forall k :: 0 <= k < i && final[k] in nodes ==> content[k] == nodes[final[k]]
      invariant forall k :: 0 <= k < i && final[k] !in nodes ==>
        fresh(content[k]) && content[k].kind == ScalarNode && content[k].value == final[k] &&
        content[k].tag == "!!str" && content[k].content == []
    {
      var val := final[i];
      if val in nodes {
        content := content + [nodes[val]];
        continue;
      }
      var node := new Node(ScalarNode, val, "!!str");
      content := content + [node];
    }
    SetContent(sq, content, m);
    if forall v :: v in nodes ==> nodes[v].kind == ScalarNode && nodes[v].value == v {
      ScalarsRead(sq.content, final);
    }
  }

  /** The sequence takes its new children (processor.go:255). The key scan of
      the mapping `m` reads values only, so reading `m` again still finds
      `sq`. */
  method SetContent(sq: Node, content: seq<Node>, ghost m: seq<Node>)
    modifies sq
    ensures sq.content == content
    ensures sq.kind == old(sq.kind) && sq.value == old(sq.value) && sq.tag == old(sq.tag)
    ensures old(Reloads(m, sq)) ==> Reloads(m, sq)
  {
    ghost var vs := Values(m);
    ResourcesFromValues(m, 0);
    ReloadsFromKey(m, sq, 0);
    sq.content := content;
    forall j | 0 <= j < |m|
      ensures m[j].value == vs[j]
    {
    }
    ValuesEqual(m, vs);
    ResourcesFromValues(m, 0);
    ReloadsFromKey(m, sq, 0);
  }

  /** Scalar nodes carrying the values `vals`, one each, read as `vals`. */
  lemma {:induction false} ScalarsRead(ns: seq<Node>, vals: seq<string>)
    requires |ns| == |vals|
    requires forall i :: 0 <= i < |ns| ==> ns[i].kind == ScalarNode && ns[i].value == vals[i]
    ensures ScalarValues(ns) == vals
    decreases |ns|
  {
    if ns != [] {
      ScalarsRead(ns[1..], vals[1..]);
    }
  }

  /** The refill step of updateKustomization on a normalised document whose
      resources sequence, holding `rc`, was indexed by
      collectExistingResources (processor.go:241-255): each entry of `final`
      gets the node indexed under it, which is the last scalar of `rc`
      carrying it, or else a fresh plain string scalar; the document keeps
      its shape and the sequence then reads exactly `final`. */
  method RefillResources(root: Node, sq: Node, final: seq<string>, nodes: map<string, Node>, ghost rc: seq<Node>)
    requires Shaped(root, sq)
    requires sq.content == rc && sq !in rc
    requires forall v :: v in nodes ==>
      0 <= LastScalar(rc, v) && nodes[v] == rc[LastScalar(rc, v)]
    modifies sq
    ensures Shaped(root, sq)
    ensures old(Reloads(root.content[0].content, sq)) ==> Reloads(root.content[0].content, sq)
    ensures sq.value == old(sq.value) && sq.tag == old(sq.tag)
    ensures |sq.content| == |final|
    ensures forall i :: 0 <= i < |final| && final[i] in nodes ==>
      sq.content[i] == nodes[final[i]] && 0 <= LastScalar(rc, final[i]) && sq.content[i] == rc[LastScalar(rc, final[i])]
    ensures forall i :: 0 <= i < |final| && final[i] !in nodes ==>
      fresh(sq.content[i]) && sq.content[i].kind == ScalarNode && sq.content[i].value == final[i] &&
      sq.content[i].tag == "!!str" && sq.content[i].content == []
    ensures ScalarValues(sq.content) == final
  {
    ghost var m := root.content[0];
    ghost var j :| 0 <= j < |m.content| && j % 2 == 0 && IsHeaderKey(m.content[j].value);
    forall v | v in nodes
      ensures nodes[v].kind == ScalarNode && nodes[v].value == v
    {
      LastScalarFacts(rc, v);
    }
    FillSequence(sq, final, nodes, m.content);
    assert IsHeaderKey(m.content[j].value);
  }
}
