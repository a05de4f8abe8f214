/** The mutable document tree, the parser that builds it from events and the
    printer that walks it (qpid/python/mllib/dom.py, parsers.py, transforms.py). */
module Dom {
  import opened Wrappers
  import opened Sequences
  import opened Events
  import opened Lexer

  datatype Kind = Tree | Tag | Data | Entity | Character | Comment

  class Node {
    const kind: Kind
    const name: string
    const attrs: Attributes
    var data: string
    var children: seq<Node>
    var parent: Node?
    var singleton: bool

    /** Creation order, and what the node prints once no more is added below it. */
    ghost const rank: nat
    ghost var printed: seq<Event>

    constructor (kind: Kind, name: string, attrs: Attributes, data: string, ghost rank: nat)
      ensures this.kind == kind && this.name == name && this.attrs == attrs && this.data == data && this.rank == rank
      ensures children == [] && parent == null && !singleton && printed == [LeafEvent(kind, data)]
    {
      this.kind, this.name, this.attrs, this.data, this.rank := kind, name, attrs, data, rank;
      children, parent, singleton, printed := [], null, false, [LeafEvent(kind, data)];
    }

    method Add(child: Node)
      requires child != this
      modifies this`children, child`parent
      ensures children == old(children) + [child] && child.parent == this
    {
      child.parent := this;
      children := children + [child];
    }

    method Extend(more: seq<Node>)
      modifies this`children, more`parent
      ensures children == old(children) + more
      ensures forall i :: 0 <= i < |more| ==> more[i].parent == this
    {
      for i := 0 to |more|
        invariant children == old(children) + more[..i]
        invariant forall j :: 0 <= j < i ==> more[j].parent == this
      {
        more[i].parent := this;
        children := children + [more[i]];
      }
      assert more[..|more|] == more;
    }
  }

  function LeafEvent(kind: Kind, data: string): Event
  {
    match kind
    case Entity => EntityRef(data)
    case Character => CharacterRef(data)
    case Comment => Remark(data)
    case _ => Text(data)
  }

  /** What a list of nodes prints, one after another. */
  ghost function Prints(ns: seq<Node>): seq<Event>
    reads set i | 0 <= i < |ns| :: ns[i]`printed
  {
    if ns == [] then [] else ns[0].printed + Prints(ns[1..])
  }

  lemma {:induction false} PrintsAppends(a: seq<Node>, b: seq<Node>)
    ensures Prints(a + b) == Prints(a) + Prints(b)
  {
    if a == [] {
      assert a + b == b;
    } else {
      assert (a + b)[0] == a[0] && (a + b)[1..] == a[1..] + b;
      PrintsAppends(a[1..], b);
      Associate(a[0].printed, Prints(a[1..]), Prints(b));
    }
  }

  twostate lemma {:induction false} PrintsFramed(ns: seq<Node>)
    requires forall n :: n in ns ==> n.printed == old(n.printed)
    ensures Prints(ns) == old(Prints(ns))
  {
    if ns != [] {
      PrintsFramed(ns[1..]);
    }
  }

  lemma PrintsOne(n: Node)
    ensures Prints([n]) == n.printed
  {
    assert [n][1..] == [];
    assert n.printed + [] == n.printed;
  }

  /** What a finished node prints, from what its children print. */
  ghost function Closing(n: Node): seq<Event>
    reads n, set i | 0 <= i < |n.children| :: n.children[i]`printed
  {
    if n.kind.Tag?
    then [Start(n.name, n.attrs)] + Prints(n.children) + if n.singleton then [] else [End(n.name)]
    else [LeafEvent(n.kind, n.data)]
  }

  function Names(ns: seq<Node>): seq<string>
  {
    seq(|ns|, i requires 0 <= i < |ns| => ns[i].name)
  }

  function Youngest(n: Node): Node
    requires n.children != []
    reads n
  {
    n.children[|n.children| - 1]
  }

  function Older(n: Node): seq<Node>
    requires n.children != []
    reads n
  {
    n.children[..|n.children| - 1]
  }

  class Parser {
    var tree: Node
    var node: Node

    /** All nodes so far; the open ones from the tree down to `node`; for each
        open one what was printed up to its start tag; and the events so far. */
    ghost var nodes: set<Node>
    ghost var spine: seq<Node>
    ghost var before: seq<seq<Event>>
    ghost var log: seq<Event>
    ghost var count: nat

    /** Parent link and child list of one node agree with its neighbours. */
    ghost predicate Linked(n: Node)
      reads this, nodes
    {
      && n in nodes
      && n.rank < count
      && (forall c :: c in n.children ==> c in nodes && c.parent == n && n.rank < c.rank)
      && (forall i, j :: 0 <= i < j < |n.children| ==> n.children[i].rank < n.children[j].rank)
      && (n.kind.Tag? || n.kind.Tree? || n.children == [])
      && (n != tree ==> n.parent != null && n.parent in nodes && n in n.parent.children)
    }

    ghost predicate Finished(n: Node)
      reads this, nodes
    {
      && n in nodes
      && !n.kind.Tree?
      && (n.singleton ==> n.kind.Tag? && n.children == [])
      && (forall c :: c in n.children ==> c in nodes && c !in spine)
      && n.printed == Closing(n)
    }

    /** The open node number `i`, the one below it, and what was printed before
        that one was opened. */
    ghost predicate Joined(i: nat)
      reads this, nodes
    {
      && i + 1 < |spine| == |before|
      && spine[i] in nodes && spine[i + 1] in nodes
      && spine[i + 1].kind.Tag? && !spine[i + 1].singleton
      && spine[i + 1].parent == spine[i]
      && spine[i].children != [] && Youngest(spine[i]) == spine[i + 1]
      && (forall c :: c in Older(spine[i]) ==> c in nodes && c !in spine)
      && before[i + 1] == before[i] + Prints(Older(spine[i])) + [Start(spine[i + 1].name, spine[i + 1].attrs)]
    }

    ghost predicate Opened()
      reads this, nodes
    {
      && |spine| > 0 && |before| == |spine|
      && spine[0] == tree && tree in nodes && tree.kind.Tree? && tree.parent == null && before[0] == []
      && node == spine[|spine| - 1] && (node.kind.Tag? || node.kind.Tree?)
      && (forall i :: 0 <= i < |spine| ==> spine[i] in nodes)
      && (forall i, j :: 0 <= i < j < |spine| ==> spine[i].rank < spine[j].rank)
      && (forall i {:trigger Joined(i)} :: 0 <= i < |spine| - 1 ==> Joined(i))
      && (forall c :: c in node.children ==> c in nodes && c !in spine)
      && Merge(log) == before[|before| - 1] + Prints(node.children)
    }

    /** The tree is well formed and prints the events so far. */
    ghost predicate Shaped()
      reads this, nodes
    {
      && (forall n {:trigger Linked(n)} :: n in nodes ==> Linked(n))
      && Opened()
      && (forall n {:trigger Finished(n)} :: n in nodes && n !in spine ==> Finished(n))
    }

    /** Between events, the open nodes are also the tags left open. */
    ghost predicate Valid()
      reads this, nodes
    {
      Shaped() && Open(log) == Names(spine[1..])
    }

    constructor ()
      ensures Valid() && fresh(nodes) && log == [] && spine == [tree]
    {
      var root := new Node(Kind.Tree, "", [], "", 0);
      tree, node := root, root;
      nodes, spine, before, log, count := {root}, [root], [[]], [], 1;
    }

    /** A new node was put last under the current one, and is now the current
        one if it is a tag; nothing else changed. */
    twostate predicate Grown(new child: Node, e: Event)
      reads this, nodes, child
    {
      && old(Valid())
      && child !in old(nodes) && nodes == old(nodes) + {child} && count == old(count) + 1
      && tree == old(tree) && log == old(log) + [e]
      && child.rank == old(count) && child.parent == old(node) && child.children == []
      && !child.singleton && !child.kind.Tree?
      && old(node).children == old(node.children) + [child]
      && (forall n :: n in old(nodes) ==>
            && n.parent == old(n.parent) && n.printed == old(n.printed) && n.singleton == old(n.singleton)
            && n.data == old(n.data) && (n != old(node) ==> n.children == old(n.children)))
      && Absorb(old(Merge(log)), e) == old(Merge(log)) + [e]
      && if child.kind.Tag?
         then && e == Start(child.name, child.attrs) && node == child
              && spine == old(spine) + [child] && before == old(before) + [old(Merge(log)) + [e]]
         else && e == LeafEvent(child.kind, child.data) && child.printed == [e] && node == old(node)
              && spine == old(spine) && before == old(before)
    }

    twostate lemma GrownLinks(new child: Node, e: Event)
      requires Grown(child, e)
      ensures forall n {:trigger Linked(n)} :: n in nodes ==> Linked(n)
    {
      forall n | n in nodes
        ensures Linked(n)
      {
        if n != child {
          assert old(Linked(n));
          if n == old(node) {
            forall c | c in old(n.children) ensures c.rank < child.rank {
              assert old(Linked(c));
            }
          }
        }
      }
    }

    twostate lemma GrownJoins(new child: Node, e: Event)
      requires Grown(child, e)
      ensures forall i {:trigger Joined(i)} :: 0 <= i < |spine| - 1 ==> Joined(i)
    {
      forall i | 0 <= i < |spine| - 1
        ensures Joined(i)
      {
        if i + 1 < |old(spine)| {
          assert old(Joined(i));
        } else {
          assert Older(old(node)) == old(node.children);
        }
      }
    }

    twostate lemma GrownFinishes(new child: Node, e: Event)
      requires Grown(child, e)
      ensures forall n {:trigger Finished(n)} :: n in nodes && n !in spine ==> Finished(n)
    {
      forall n | n in nodes && n !in spine
        ensures Finished(n)
      {
        if n != child {
          assert old(Finished(n));
        }
      }
    }

    twostate lemma GrownTells(new child: Node, e: Event)
      requires Grown(child, e)
      ensures Merge(log) == before[|before| - 1] + Prints(node.children)
    {
      MergeAppends(old(log), e);
      if !child.kind.Tag? {
        PrintsAppends(old(node.children), [child]);
        PrintsOne(child);
        Associate(before[|before| - 1], old(Prints(node.children)), [e]);
      }
    }

    twostate lemma GrownNames(new child: Node, e: Event)
      requires Grown(child, e)
      ensures Open(log) == Names(spine[1..])
    {
      MergeAppends(old(log), e);
      if child.kind.Tag? {
        PushName(old(spine), child);
      }
    }

    twostate lemma GrownRanks(new child: Node, e: Event)
      requires Grown(child, e)
      ensures forall i, j :: 0 <= i < j < |spine| ==> spine[i].rank < spine[j].rank
    {
      forall i | 0 <= i < |old(spine)| ensures spine[i].rank < child.rank {
        assert old(Linked(spine[i]));
      }
    }

    twostate lemma GrownIsValid(new child: Node, e: Event)
      requires Grown(child, e)
      ensures Valid()
    {
      GrownLinks(child, e);
      GrownJoins(child, e);
      GrownFinishes(child, e);
      GrownTells(child, e);
      GrownNames(child, e);
      GrownRanks(child, e);
    }

    lemma ClosingEnds(c: Node)
      requires Finished(c)
      ensures |c.printed| > 0
      ensures c.printed[|c.printed| - 1].Text? <==> c.kind.Data?
      ensures c.kind.Data? ==> c.printed == [Text(c.data)]
    {
    }

    /** The last event so far is text exactly when the last child is. */
    lemma LastEvent()
      requires Shaped()
      ensures var all := Merge(log);
              (all != [] && all[|all| - 1].Text?) <==> (node.children != [] && Youngest(node).kind.Data?)
      ensures node.children != [] && Youngest(node).kind.Data? ==>
                Merge(log) == before[|before| - 1] + Prints(Older(node)) + [Text(Youngest(node).data)]
    {
      if node.children == [] {
        LastOpened();
      } else {
        LastPrinted(node, before[|before| - 1]);
        LastChild();
        LastOfTwo(before[|before| - 1] + Prints(Older(node)), Youngest(node).printed);
      }
    }

    lemma LastChild()
      requires Shaped() && node.children != []
      ensures var c := Youngest(node);
              && |c.printed| > 0
              && (c.printed[|c.printed| - 1].Text? <==> c.kind.Data?)
              && (c.kind.Data? ==> c.printed == [Text(c.data)])
    {
      var c := Youngest(node);
      assert c in node.children;
      assert Finished(c);
      ClosingEnds(c);
    }

    static lemma LastOfTwo(a: seq<Event>, b: seq<Event>)
      requires |b| > 0
      ensures (a + b)[|a + b| - 1] == b[|b| - 1]
    {
    }

    lemma LastOpened()
      requires Opened()
      ensures var b := before[|before| - 1];
              b == [] || !b[|b| - 1].Text?
    {
      var n := |spine| - 1;
      if n > 0 {
        assert Joined(n - 1);
      }
    }

    static lemma LastPrinted(n: Node, b: seq<Event>)
      requires n.children != []
      ensures b + Prints(n.children) == b + Prints(Older(n)) + Youngest(n).printed
    {
      assert n.children == Older(n) + [Youngest(n)];
      PrintsAppends(Older(n), [Youngest(n)]);
      PrintsOne(Youngest(n));
    }

    method AddLeaf(kind: Kind, data: string)
      requires Valid() && !kind.Tree? && !kind.Tag?
      requires kind.Data? ==> node.children == [] || !Youngest(node).kind.Data?
      modifies this, node
      ensures Valid() && fresh(nodes - old(nodes))
      ensures log == old(log) + [LeafEvent(kind, data)] && tree == old(tree)
    {
      LastEvent();
      var child := new Node(kind, "", [], data, count);
      node.Add(child);
      nodes, count, log := nodes + {child}, count + 1, log + [LeafEvent(kind, data)];
      GrownIsValid(child, LeafEvent(kind, data));
    }

    method StartTag(name: string, attrs: Attributes)
      requires Valid()
      modifies this, node
      ensures Valid() && fresh(nodes - old(nodes))
      ensures log == old(log) + [Start(name, attrs)] && tree == old(tree)
    {
      var tag := new Node(Kind.Tag, name, attrs, "", count);
      node.Add(tag);
      node := tag;
      before, spine := before + [Merge(log) + [Start(name, attrs)]], spine + [tag];
      nodes, count, log := nodes + {tag}, count + 1, log + [Start(name, attrs)];
      GrownIsValid(tag, Start(name, attrs));
    }

    /** Text was added to the last child, itself text; nothing else changed. */
    twostate predicate Lengthened(data: string)
      reads this, nodes
    {
      && old(Valid()) && old(node.children) != []
      && var c := old(Youngest(node));
      && c.kind.Data?
      && nodes == old(nodes) && count == old(count) && tree == old(tree) && node == old(node)
      && spine == old(spine) && before == old(before) && log == old(log) + [Text(data)]
      && c.data == old(c.data) + data && c.printed == [Text(c.data)]
      && old(Merge(log)) == old(before[|before| - 1] + Prints(Older(node)) + [Text(c.data)])
      && (forall n :: n in nodes ==>
            && n.parent == old(n.parent) && n.children == old(n.children) && n.singleton == old(n.singleton)
            && (n != c ==> n.data == old(n.data) && n.printed == old(n.printed)))
    }

    twostate lemma LengthenedLinks(data: string)
      requires Lengthened(data)
      ensures forall n {:trigger Linked(n)} :: n in nodes ==> Linked(n)
      ensures forall n :: n in nodes && n != node ==> old(Youngest(node)) !in n.children
      ensures old(Youngest(node)) !in node.children[..|node.children| - 1]
    {
      assert old(Youngest(node)) in old(node.children);
      assert old(Linked(node));
      forall n | n in nodes
        ensures Linked(n) && (n != node ==> old(Youngest(node)) !in n.children)
      {
        assert old(Linked(n));
      }
    }

    twostate lemma LengthenedJoins(data: string)
      requires Lengthened(data)
      ensures forall i {:trigger Joined(i)} :: 0 <= i < |spine| - 1 ==> Joined(i)
    {
      LengthenedLinks(data);
      forall i | 0 <= i < |spine| - 1
        ensures Joined(i)
      {
        assert old(Joined(i));
        PrintsFramed(Older(spine[i]));
      }
    }

    twostate lemma LengthenedFinishes(data: string)
      requires Lengthened(data)
      ensures forall n {:trigger Finished(n)} :: n in nodes && n !in spine ==> Finished(n)
    {
      LengthenedLinks(data);
      forall n | n in nodes && n !in spine
        ensures Finished(n)
      {
        assert old(Finished(n));
        PrintsFramed(n.children);
      }
    }

    twostate lemma LengthenedIsValid(data: string)
      requires Lengthened(data)
      ensures Valid()
    {
      LengthenedLinks(data);
      LengthenedJoins(data);
      LengthenedFinishes(data);
      MergeAppends(old(log), Text(data));
      PrintsFramed(Older(node));
      LastPrinted(node, before[|before| - 1]);
    }

    method Lengthen(data: string)
      requires Valid() && node.children != [] && Youngest(node).kind.Data?
      modifies this`log, node.children
      ensures Lengthened(data)
    {
      LastEvent();
      var c := node.children[|node.children| - 1];
      assert c in node.children;
      assert Linked(node);
      c.data := c.data + data;
      c.printed := [Text(c.data)];
      log := log + [Text(data)];
    }

    method CharacterData(data: string)
      requires Valid()
      modifies this, node, node.children
      ensures Valid() && fresh(nodes - old(nodes))
      ensures log == old(log) + [Text(data)] && tree == old(tree)
    {
      var children := node.children;
      if children != [] && children[|children| - 1].kind.Data? {
        Lengthen(data);
        LengthenedIsValid(data);
      } else {
        AddLeaf(Kind.Data, data);
      }
    }

    /** The current tag was left without an end: its children moved up behind
        it; nothing else changed. */
    twostate predicate Flattened()
      reads this, nodes
    {
      && old(Shaped()) && |old(spine)| > 1
      && var b, p := old(node), old(spine)[|old(spine)| - 2];
      && nodes == old(nodes) && count == old(count) && tree == old(tree) && log == old(log)
      && spine == old(spine)[..|old(spine)| - 1] && before == old(before)[..|old(spine)| - 1] && node == p
      && p.children == old(p.children) + old(b.children)
      && b.children == [] && b.singleton && b.printed == [Start(b.name, b.attrs)]
      && (forall n :: n in nodes ==>
            && n.parent == (if n in old(b.children) then p else old(n.parent))
            && n.data == old(n.data)
            && (n != b ==> n.printed == old(n.printed) && n.singleton == old(n.singleton))
            && (n != b && n != p ==> n.children == old(n.children)))
    }

    twostate lemma FlattenedLinks()
      requires Flattened()
      ensures forall n {:trigger Linked(n)} :: n in nodes ==> Linked(n)
    {
      var b, p, k := old(node), node, |old(spine)| - 2;
      assert old(Joined(k)) && old(Linked(b)) && old(Linked(p));
      forall n | n in nodes
        ensures Linked(n)
      {
        assert old(Linked(n));
        if n == p {
          forall c | c in old(p.children) ensures c.rank <= b.rank {
            var i :| 0 <= i < |old(p.children)| && old(p.children)[i] == c;
          }
        }
      }
    }

    twostate lemma FlattenedJoins()
      requires Flattened()
      ensures forall i {:trigger Joined(i)} :: 0 <= i < |spine| - 1 ==> Joined(i)
    {
      forall i | 0 <= i < |spine| - 1
        ensures Joined(i)
      {
        assert old(Joined(i));
        assert old(Joined(i + 1));
        PrintsFramed(Older(spine[i]));
      }
    }

    twostate lemma FlattenedMoves()
      requires Flattened()
      ensures forall c :: c in node.children ==> c in nodes && c !in spine
      ensures old(node) !in old(node.children)
    {
      assert old(Joined(|spine| - 2));
      assert old(Linked(node));
      assert old(node.children) != [] ==> old(node.children)[0] in old(node.children);
    }

    twostate lemma FlattenedTells()
      requires Flattened()
      ensures Merge(log) == before[|before| - 1] + Prints(node.children)
    {
      assert old(Joined(|spine| - 2));
      var b, older, moved := old(node), old(Older(spine[|spine| - 2])), old(node.children);
      FlattenedMoves();
      PrintsFramed(older);
      PrintsFramed(moved);
      assert node.children == older + [b] + moved;
      PrintsThree(older, b, moved);
      Regroup(before[|before| - 1], Prints(older), b.printed, Prints(moved));
    }

    static lemma Regroup(a: seq<Event>, b: seq<Event>, c: seq<Event>, d: seq<Event>)
      ensures (a + b + c) + d == a + (b + c + d)
    {
    }

    static lemma PrintsThree(older: seq<Node>, b: Node, moved: seq<Node>)
      ensures Prints(older + [b] + moved) == Prints(older) + b.printed + Prints(moved)
    {
      PrintsAppends(older + [b], moved);
      PrintsAppends(older, [b]);
      PrintsOne(b);
    }

    twostate lemma FlattenedFinishes()
      requires Flattened()
      ensures forall n {:trigger Finished(n)} :: n in nodes && n !in spine ==> Finished(n)
    {
      var b := old(node);
      assert old(Joined(|spine| - 2));
      forall n | n in nodes && n !in spine
        ensures Finished(n)
      {
        if n != b {
          assert old(Finished(n));
          PrintsFramed(n.children);
        }
      }
    }

    twostate lemma FlattenedIsShaped()
      requires Flattened()
      ensures Shaped()
    {
      assert old(Joined(|spine| - 2));
      FlattenedLinks();
      FlattenedJoins();
      FlattenedTells();
      FlattenedMoves();
      FlattenedFinishes();
      if |spine| > 1 {
        assert Joined(|spine| - 2);
      }
    }

    method Adopt(p: Node, moved: seq<Node>)
      requires p in nodes && forall c :: c in moved ==> c in nodes
      modifies p`children, moved`parent
      ensures p.children == old(p.children) + moved
      ensures forall n :: n in nodes ==> n.parent == if n in moved then p else old(n.parent)
    {
      p.Extend(moved);
    }

    method MoveUp()
      requires Shaped() && |spine| > 1
      modifies this, nodes
      ensures Flattened()
    {
      assert Joined(|spine| - 2);
      assert Linked(node);
      var b, p := node, node.parent;
      Adopt(p, b.children);
      b.children := [];
      b.singleton := true;
      b.printed := [Start(b.name, b.attrs)];
      node := p;
      spine, before := spine[..|spine| - 1], before[..|spine| - 1];
    }

    method Flatten()
      requires Shaped() && |spine| > 1
      modifies this, nodes
      ensures Shaped() && nodes == old(nodes) && tree == old(tree) && log == old(log)
      ensures spine == old(spine)[..|old(spine)| - 1]
    {
      MoveUp();
      FlattenedIsShaped();
    }

    /** Closes tags that were left open, innermost first, until the current node
        has that name, or is the tree itself. */
    method Balance(name: Option<string>)
      requires Shaped()
      modifies this, nodes
      ensures Shaped() && nodes == old(nodes) && tree == old(tree) && log == old(log)
      ensures if name.None? then |spine| == 1 else Names(spine[1..]) == KeptOf(old(spine), name.value)
    {
      NodeIsTree();
      while node != tree && name != Some(node.name)
        invariant Shaped() && nodes == old(nodes) && tree == old(tree) && log == old(log)
        invariant node == tree <==> |spine| == 1
        invariant name.Some? ==> KeptOf(spine, name.value) == KeptOf(old(spine), name.value)
        decreases |spine|
      {
        if name.Some? {
          KeptWithout(spine, name.value);
        }
        Flatten();
        NodeIsTree();
      }
      if name.Some? {
        KeptStays(spine, name.value);
      }
    }

    lemma NodeIsTree()
      requires Opened()
      ensures node == tree <==> |spine| == 1
    {
    }

    /** The current tag got its end; nothing else changed. */
    twostate predicate Closed()
      reads this, nodes
    {
      && old(Shaped()) && |old(spine)| > 1
      && var b := old(node);
      && nodes == old(nodes) && count == old(count) && tree == old(tree) && log == old(log) + [End(b.name)]
      && spine == old(spine)[..|old(spine)| - 1] && before == old(before)[..|old(spine)| - 1]
      && node == old(spine)[|old(spine)| - 2]
      && b.printed == old(Closing(b))
      && (forall n :: n in nodes ==>
            && n.parent == old(n.parent) && n.data == old(n.data) && n.singleton == old(n.singleton)
            && n.children == old(n.children) && (n != b ==> n.printed == old(n.printed)))
    }

    twostate lemma ClosedLinks()
      requires Closed()
      ensures forall n {:trigger Linked(n)} :: n in nodes ==> Linked(n)
    {
      forall n | n in nodes
        ensures Linked(n)
      {
        assert old(Linked(n));
      }
    }

    twostate lemma ClosedJoins()
      requires Closed()
      ensures forall i {:trigger Joined(i)} :: 0 <= i < |spine| - 1 ==> Joined(i)
    {
      forall i | 0 <= i < |spine| - 1
        ensures Joined(i)
      {
        assert old(Joined(i));
        PrintsFramed(Older(spine[i]));
      }
    }

    twostate lemma ClosedFinishes()
      requires Closed()
      ensures forall n {:trigger Finished(n)} :: n in nodes && n !in spine ==> Finished(n)
    {
      var b := old(node);
      assert old(Joined(|spine| - 2));
      assert old(Linked(b));
      forall n | n in nodes && n !in spine
        ensures Finished(n)
      {
        if n != b {
          assert old(Finished(n));
        }
        PrintsFramed(n.children);
      }
    }

    twostate lemma ClosedParts()
      requires Closed()
      ensures node.children != [] && Youngest(node) == old(node) && old(!node.singleton && node.kind.Tag?)
      ensures Prints(Older(node)) == old(Prints(Older(spine[|spine| - 2])))
      ensures forall c :: c in node.children ==> c in nodes && c !in spine
    {
      assert old(Joined(|spine| - 2));
      assert old(Linked(spine[|spine| - 2]));
      PrintsFramed(Older(node));
    }

    twostate lemma ClosedTells()
      requires Closed()
      ensures Merge(log) == before[|before| - 1] + Prints(node.children)
    {
      var start, body, end := [Start(old(node).name, old(node).attrs)], old(Prints(node.children)),
          [End(old(node).name)];
      assert old(Joined(|spine| - 2));
      ClosedParts();
      LastPrinted(node, before[|before| - 1]);
      MergeAppends(old(log), end[0]);
      Rebracket(before[|before| - 1] + Prints(Older(node)), start, body, end);
    }

    static lemma Rebracket(a: seq<Event>, b: seq<Event>, c: seq<Event>, d: seq<Event>)
      ensures ((a + b) + c) + d == a + (b + c + d)
    {
    }

    twostate lemma ClosedIsShaped()
      requires Closed()
      ensures Shaped()
    {
      assert old(Joined(|spine| - 2));
      ClosedLinks();
      ClosedJoins();
      ClosedFinishes();
      ClosedTells();
      ClosedParts();
      if |spine| > 1 {
        assert Joined(|spine| - 2);
      }
    }

    /** `inside` is false when no tag of that name is open. Then every open tag is
        flattened and the source's current node is None: whatever comes next
        raises, the end of the document included. */
    method EndTag(name: string) returns (inside: bool)
      requires Valid()
      modifies this, nodes
      ensures inside <==> name in Open(old(log))
      ensures nodes == old(nodes) && tree == old(tree)
      ensures if inside then Valid() && log == old(log) + [End(name)]
              else Shaped() && log == old(log) && spine == [tree]
    {
      Balance(Some(name));
      KeptAreOpen(old(spine), spine, name);
      NodeIsTree();
      inside := node != tree;
      if inside {
        Close(name);
        MergeAppends(old(log), End(name));
      }
    }

    /** The end of the document. */
    method Finish()
      requires Shaped()
      modifies this, nodes
      ensures Shaped() && nodes == old(nodes) && log == old(log) && spine == [tree]
      ensures Prints(tree.children) == Merge(log)
    {
      Balance(None);
      assert [] + Prints(tree.children) == Prints(tree.children);
    }

    /** One call of the parser per event; `ok` is false when it leaves the tree. */
    method Handle(e: Event) returns (ok: bool)
      requires Valid()
      modifies this, nodes
      ensures ok <==> (e.End? ==> e.name in Open(old(log)))
      ensures tree == old(tree) && fresh(nodes - old(nodes))
      ensures ok ==> Valid() && log == old(log) + [e]
    {
      assert Linked(node);
      ok := true;
      match e
      case Start(name, attrs) => StartTag(name, attrs);
      case End(name) => ok := EndTag(name);
      case Text(data) => CharacterData(data);
      case EntityRef(ref) => AddLeaf(Kind.Entity, ref);
      case CharacterRef(ref) => AddLeaf(Kind.Character, ref);
      case Remark(comment) => AddLeaf(Kind.Comment, comment);
    }

    method Close(ghost name: string)
      requires Shaped() && |spine| > 1 && node.name == name
      modifies this, nodes
      ensures Shaped() && nodes == old(nodes) && tree == old(tree)
      ensures spine == old(spine)[..|old(spine)| - 1] && log == old(log) + [End(name)]
    {
      StepOut();
      ClosedIsShaped();
    }

    method StepOut()
      requires Shaped() && |spine| > 1
      modifies this, node`printed
      ensures Closed()
    {
      assert Joined(|spine| - 2);
      log := log + [End(node.name)];
      node.printed := Closing(node);
      node := node.parent;
      spine, before := spine[..|spine| - 1], before[..|spine| - 1];
    }
  }

  lemma PushName(spine: seq<Node>, n: Node)
    requires spine != []
    ensures Names((spine + [n])[1..]) == Names(spine[1..]) + [n.name]
  {
  }

  lemma PopName(spine: seq<Node>)
    ensures |spine| > 1 ==> Names(spine[..|spine| - 1][1..]) == Names(spine[1..])[..|spine| - 2]
    ensures |spine| > 1 ==> Names(spine[1..])[|spine| - 2] == spine[|spine| - 1].name
  {
  }

  /** The open tags after everything inside the innermost tag of that name was
      closed; none if there is no such tag. */
  function Kept(open: seq<string>, name: string): seq<string>
  {
    if open == [] || open[|open| - 1] == name then open else Kept(open[..|open| - 1], name)
  }

  /** The same for the tags above the tree. */
  function KeptOf(spine: seq<Node>, name: string): seq<string>
    requires spine != []
  {
    Kept(Names(spine[1..]), name)
  }

  lemma KeptWithout(spine: seq<Node>, name: string)
    requires |spine| > 1 && spine[|spine| - 1].name != name
    ensures KeptOf(spine, name) == KeptOf(spine[..|spine| - 1], name)
  {
    PopName(spine);
  }

  lemma KeptStays(spine: seq<Node>, name: string)
    requires |spine| == 1 || (|spine| > 1 && spine[|spine| - 1].name == name)
    ensures KeptOf(spine, name) == Names(spine[1..])
  {
    PopName(spine);
  }

  lemma {:induction false} KeptIsClosed(open: seq<string>, name: string)
    ensures Kept(open, name) == if name in open then CloseTag(open, name) + [name] else []
  {
    if open != [] && open[|open| - 1] != name {
      KeptIsClosed(open[..|open| - 1], name);
      assert open == open[..|open| - 1] + [open[|open| - 1]];
    } else if open != [] {
      assert open == open[..|open| - 1] + [name];
    }
  }

  /** What is left open after balancing for an end, and after the end itself. */
  lemma KeptAreOpen(was: seq<Node>, spine: seq<Node>, name: string)
    requires was != [] && spine != [] && Names(spine[1..]) == KeptOf(was, name)
    ensures var open := Names(was[1..]);
            if |spine| == 1 then name !in open
            else name in open && spine[|spine| - 1].name == name
                 && Names(spine[..|spine| - 1][1..]) == CloseTag(open, name)
  {
    KeptIsClosed(Names(was[1..]), name);
    PopName(spine);
  }

  /** A whole document: the events one by one, then `balance` for the tags still
      open at the end. It raises, and `ok` is false, exactly when an end has no
      open tag. */
  method Parse(events: seq<Event>) returns (p: Parser, ok: bool)
    ensures ok <==> Matched(events)
    ensures fresh(p) && fresh(p.nodes)
    ensures ok ==> p.Shaped() && p.log == events && p.spine == [p.tree] && Prints(p.tree.children) == Merge(events)
  {
    p := new Parser();
    for i := 0 to |events|
      invariant fresh(p) && fresh(p.nodes) && p.Valid() && p.log == events[..i]
      invariant Matched(events[..i])
    {
      MatchedNext(events, i);
      ok := p.Handle(events[i]);
      if !ok {
        return;
      }
    }
    assert events[..|events|] == events;
    p.Finish();
    ok := true;
  }

  /** The printer's `default`, for a tag, and its handlers for leaves. */
  method Dispatch(ghost p: Parser, n: Node) returns (out: Option<string>)
    requires p.Shaped() && n in p.nodes && n !in p.spine
    ensures out == RenderAll(n.printed)
    decreases p.count - n.rank, 1
  {
    assert p.Finished(n);
    if n.kind.Tag? {
      var body := Descend(p, n);
      RenderAppends([Start(n.name, n.attrs)], Prints(n.children));
      RenderOne(Start(n.name, n.attrs));
      out := Glue(Some("<" + n.name + RenderAttributes(n.attrs) + ">"), body);
      if !n.singleton {
        RenderAppends([Start(n.name, n.attrs)] + Prints(n.children), [End(n.name)]);
        RenderOne(End(n.name));
        out := Glue(out, Some("</" + n.name + ">"));
      } else {
        assert n.printed == [Start(n.name, n.attrs)] + Prints(n.children);
      }
    } else {
      RenderOne(LeafEvent(n.kind, n.data));
      if n.kind.Entity? {
        out := Some("&" + n.data + ";");
      } else if n.kind.Character? {
        out := None;
      } else if n.kind.Comment? {
        out := Some("<!-- " + n.data + " -->");
      } else {
        out := Some(n.data);
      }
    }
  }

  lemma RenderNext(ns: seq<Node>, i: nat)
    requires i < |ns|
    ensures RenderAll(Prints(ns[..i + 1])) == Glue(RenderAll(Prints(ns[..i])), RenderAll(ns[i].printed))
  {
    assert ns[..i + 1] == ns[..i] + [ns[i]];
    PrintsAppends(ns[..i], [ns[i]]);
    PrintsOne(ns[i]);
    RenderAppends(Prints(ns[..i]), ns[i].printed);
  }

  method Descend(ghost p: Parser, n: Node) returns (out: Option<string>)
    requires p.Shaped() && n in p.nodes
    requires forall c :: c in n.children ==> c !in p.spine
    ensures out == RenderAll(Prints(n.children))
    decreases p.count - n.rank, 0
  {
    out := Some("");
    var children := n.children;
    ChildrenBelow(p, n);
    for i := 0 to |children|
      invariant out == RenderAll(Prints(children[..i]))
    {
      assert children[i] in children;
      var s := Dispatch(p, children[i]);
      RenderNext(children, i);
      out := Glue(out, s);
    }
    assert children[..|children|] == children;
  }

  lemma ChildrenBelow(p: Parser, n: Node)
    requires p.Shaped() && n in p.nodes
    ensures forall c :: c in n.children ==> c in p.nodes && n.rank < c.rank < p.count
  {
    assert p.Linked(n);
    forall c | c in n.children
      ensures c.rank < p.count
    {
      assert p.Linked(c);
    }
  }

  /** Printing undoes parsing: the text printed for the tree built from any
      matched events is the text of those events one after another, including
      tags that were never closed. Other events raise. A reader that knows nothing of
      the printer finds the events in it again, when no delimiter occurs in what it
      delimits. */
  method ParseAndPrint(events: seq<Event>) returns (out: Option<string>)
    ensures out == if Matched(events) then RenderAll(events) else None
    ensures Matched(events) && Clear(events) ==> out.Some? && Lex(out.value) == Some(Merge(events))
    ensures out.None? <==> !Matched(events) || exists i :: 0 <= i < |events| && events[i].CharacterRef?
  {
    var p, ok := Parse(events);
    if !ok {
      return None;
    }
    out := Descend(p, p.tree);
    PrintedTells(events);
    RenderRaisesExactly(events);
  }
}
