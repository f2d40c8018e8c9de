/**
 The table graph of packages/db-admin/src/er.ts and its depth-first search with an explicit stack: the
 order in which tables are finished, and the ranks that follow from it.
 */
module ErGraph {

  // A foreign key, from the table it references (the parent) to the one that holds it (the child).
  datatype Relationship = Relationship(parent: nat, child: nat, manyToMany: bool)

  // Tables are known by their places; a table may be listed several times among the children of one.
  type Graph = seq<seq<nat>>

  predicate WellFormed(g: Graph) {
    forall u, j :: 0 <= u < |g| && 0 <= j < |g[u]| ==> g[u][j] < |g|
  }

  predicate IsEdge(g: Graph, u: nat, v: nat) {
    u < |g| && v in g[u]
  }

  // Whether a relationship is an edge of the layout.
  predicate Counts(r: Relationship, n: nat) {
    !r.manyToMany && r.parent != r.child && r.parent < n && r.child < n
  }

  predicate IsPath(g: Graph, p: seq<nat>) {
    forall i :: 0 <= i < |p| - 1 ==> IsEdge(g, p[i], p[i + 1])
  }

  // A path leads from one table to the other.
  ghost predicate Leads(g: Graph, from: nat, to: nat) {
    exists p: seq<nat> :: IsPath(g, p) && p != [] && p[0] == from && p[|p| - 1] == to
  }

  // No path comes back to where it began.
  ghost predicate Acyclic(g: Graph) {
    forall p: seq<nat> :: IsPath(g, p) && |p| > 1 ==> p[0] != p[|p| - 1]
  }

  // The graph of the relationships that count, in their order.
  function GraphOf(n: nat, relationships: seq<Relationship>): (g: Graph)
    ensures |g| == n && WellFormed(g)
  {
    var k := |relationships| - 1;
    if k < 0 then seq(n, i => []) else
    var g := GraphOf(n, relationships[..k]);
    var r := relationships[k];
    if Counts(r, n) then g[r.parent := g[r.parent] + [r.child]] else g
  }

  /** An edge for every relationship with one parent between two tables that are listed, and no other. */
  lemma {:induction false} EdgesAre(n: nat, relationships: seq<Relationship>, u: nat, v: nat)
    ensures IsEdge(GraphOf(n, relationships), u, v) <==>
            && u != v && u < n && v < n
            && exists k :: 0 <= k < |relationships| && relationships[k] == Relationship(u, v, false)
  {
    var k := |relationships| - 1;
    if k >= 0 {
      EdgesAre(n, relationships[..k], u, v);
      var r := relationships[k];
      if Counts(r, n) && r.parent == u && r.child == v {
        assert GraphOf(n, relationships)[u][|GraphOf(n, relationships)[u]| - 1] == v;
      }
      assert forall m :: 0 <= m < k ==> relationships[..k][m] == relationships[m];
    }
  }

  /** The children of each table. */
  method ChildLists(n: nat, relationships: seq<Relationship>) returns (g: Graph)
    ensures g == GraphOf(n, relationships)
  {
    g := seq(n, i => []);
    var k := 0;
    while k < |relationships|
      invariant k <= |relationships| && g == GraphOf(n, relationships[..k])
    {
      var r := relationships[k];
      assert relationships[..k + 1][..k] == relationships[..k];
      if Counts(r, n) {
        g := g[r.parent := g[r.parent] + [r.child]];
      }
      k := k + 1;
    }
    assert relationships[..k] == relationships;
  }

  /* ---------- Depth-first search ---------- */

  datatype Color = White | Gray | Black

  datatype Frame = Frame(node: nat, next: nat)

  function Whites(color: seq<Color>): nat {
    var n := |color| - 1;
    if n < 0 then 0 else Whites(color[..n]) + if color[n] == White then 1 else 0
  }

  // Children that are still to be looked at from the tables on the stack.
  function Left(g: Graph, stack: seq<Frame>): nat
    requires InRange(g, stack)
  {
    var n := |stack| - 1;
    if n < 0 then 0 else Left(g, stack[..n]) + |g[stack[n].node]| - stack[n].next
  }

  lemma {:induction false} OneLessWhite(color: seq<Color>, v: nat, c: Color)
    requires v < |color| && color[v] == White && c != White
    ensures Whites(color[v := c]) == Whites(color) - 1
  {
    var n := |color| - 1;
    if v == n {
      assert color[v := c][..n] == color[..n];
    } else {
      assert color[v := c][..n] == color[..n][v := c];
      OneLessWhite(color[..n], v, c);
    }
  }

  lemma {:induction false} SameWhites(color: seq<Color>, v: nat, c: Color)
    requires v < |color| && color[v] != White && c != White
    ensures Whites(color[v := c]) == Whites(color)
  {
    var n := |color| - 1;
    if v == n {
      assert color[v := c][..n] == color[..n];
    } else {
      assert color[v := c][..n] == color[..n][v := c];
      SameWhites(color[..n], v, c);
    }
  }

  predicate Distinct(s: seq<nat>) {
    forall i, j :: 0 <= i < j < |s| ==> s[i] != s[j]
  }

  // A list holds the tables of one color, each once.
  ghost predicate Lists(color: seq<Color>, c: Color, s: seq<nat>) {
    Distinct(s) && forall v: nat :: v in s <==> v < |color| && color[v] == c
  }

  function Nodes(stack: seq<Frame>): (r: seq<nat>)
    ensures |r| == |stack| && forall i :: 0 <= i < |r| ==> r[i] == stack[i].node
  {
    seq(|stack|, i requires 0 <= i < |stack| => stack[i].node)
  }

  predicate InRange(g: Graph, stack: seq<Frame>) {
    forall i :: 0 <= i < |stack| ==> stack[i].node < |g| && stack[i].next <= |g[stack[i].node]|
  }

  // Each table on the stack is the child that the frame below it looked at last.
  predicate Linked(g: Graph, stack: seq<Frame>)
    requires InRange(g, stack)
  {
    forall i :: 0 <= i < |stack| - 1 ==> stack[i].next > 0 && g[stack[i].node][stack[i].next - 1] == stack[i + 1].node
  }

  // The finished tables are black and listed; the gray ones are on the stack.
  ghost predicate Searching(g: Graph, color: seq<Color>, order: seq<nat>, stack: seq<Frame>) {
    && |color| == |g| && Lists(color, Black, order) && Lists(color, Gray, Nodes(stack))
    && InRange(g, stack) && Linked(g, stack)
  }

  // The children a frame has looked at are finished, but for the one just above it and for those that
  // lead back to it.
  ghost predicate LookedAt(g: Graph, color: seq<Color>, stack: seq<Frame>)
    requires |color| == |g| && WellFormed(g) && InRange(g, stack)
  {
    forall i, j :: 0 <= i < |stack| && 0 <= j < stack[i].next - (if i < |stack| - 1 then 1 else 0) ==>
      Settled(g, color, stack[i].node, g[stack[i].node][j])
  }

  ghost predicate Settled(g: Graph, color: seq<Color>, u: nat, v: nat) {
    v < |color| && (color[v] == Black || Leads(g, v, u))
  }

  // The children of a finished table finished before it, but for those that lead back to it.
  ghost predicate ChildrenFirst(g: Graph, order: seq<nat>) {
    forall i, j :: 0 <= i < |order| && order[i] < |g| && 0 <= j < |g[order[i]]| ==>
      FinishedBefore(g, order, i, g[order[i]][j])
  }

  ghost predicate FinishedBefore(g: Graph, order: seq<nat>, i: nat, v: nat)
    requires i < |order|
  {
    v in order[..i] || Leads(g, v, order[i])
  }

  // A child on the stack would close a path.
  lemma PathOnStack(g: Graph, stack: seq<Frame>, i: nat)
    requires WellFormed(g) && InRange(g, stack) && Linked(g, stack) && i < |stack|
    ensures IsPath(g, Nodes(stack)[i..])
  {
    var p := Nodes(stack)[i..];
    forall k | 0 <= k < |p| - 1 ensures IsEdge(g, p[k], p[k + 1]) {
      assert g[stack[i + k].node][stack[i + k].next - 1] == stack[i + k + 1].node;
    }
  }

  lemma PathGrows(g: Graph, p: seq<nat>, v: nat)
    requires IsPath(g, p) && p != [] && IsEdge(g, p[|p| - 1], v)
    ensures IsPath(g, p + [v])
  {
  }

  lemma ClosedPath(g: Graph, p: seq<nat>, v: nat)
    requires IsPath(g, p) && p != [] && p[0] == v && IsEdge(g, p[|p| - 1], v)
    ensures !Acyclic(g)
  {
    hide IsPath;
    PathGrows(g, p, v);
    assert (p + [v])[0] == v && (p + [v])[|p + [v]| - 1] == v;
  }

  /** An edge whose child leads back to its parent lies on a cycle, and in a graph without cycles there is none. */
  lemma NoWayBack(g: Graph, u: nat, v: nat)
    requires Acyclic(g) && IsEdge(g, u, v)
    ensures !Leads(g, v, u)
  {
    hide IsPath, IsEdge;
    if Leads(g, v, u) {
      var p: seq<nat> :| IsPath(g, p) && p != [] && p[0] == v && p[|p| - 1] == u;
      ClosedPath(g, p, v);
    }
  }

  // A gray child is on the stack: it leads to the top.
  lemma GrayLeads(g: Graph, color: seq<Color>, order: seq<nat>, stack: seq<Frame>, v: nat)
    requires WellFormed(g) && Searching(g, color, order, stack) && stack != []
    requires v < |g| && color[v] == Gray
    ensures Leads(g, v, stack[|stack| - 1].node)
  {
    hide IsPath, WellFormed, InRange, Linked, IsEdge;
    var i :| 0 <= i < |stack| && Nodes(stack)[i] == v;
    var p := Nodes(stack)[i..];
    PathOnStack(g, stack, i);
    assert p[0] == v && p[|p| - 1] == stack[|stack| - 1].node;
  }

  /* ---------- One turn of the search ---------- */

  lemma LastIsNew(a: seq<nat>, u: nat)
    requires Distinct(a + [u])
    ensures u !in a
  {
    forall i | 0 <= i < |a| ensures a[i] != u {
      assert (a + [u])[i] != (a + [u])[|a|];
    }
  }

  lemma Moved(color: seq<Color>, from: Color, next: Color, a: seq<nat>, b: seq<nat>, u: nat)
    requires u < |color| && from != next && Lists(color, from, a + [u]) && Lists(color, next, b)
    ensures Lists(color[u := next], from, a) && Lists(color[u := next], next, b + [u])
  {
    assert (a + [u])[|a|] == u;
    assert color[u] == from;
    assert u !in b;
    forall v: nat ensures v in b + [u] <==> v < |color| && color[u := next][v] == next {
      assert v in b + [u] <==> v in b || v == u;
    }
    LastIsNew(a, u);
    forall v: nat ensures v in a <==> v < |color| && color[u := next][v] == from {
      assert v in a + [u] <==> v in a || v == u;
    }
    forall i, j | 0 <= i < j < |a| ensures a[i] != a[j] {
      assert (a + [u])[i] != (a + [u])[j];
    }
  }

  lemma Joined(color: seq<Color>, c: Color, s: seq<nat>, u: nat)
    requires u < |color| && color[u] != c && Lists(color, c, s)
    ensures Lists(color[u := c], c, s + [u])
  {
    assert u !in s;
    forall v: nat ensures v in s + [u] <==> v < |color| && color[u := c][v] == c {
      assert v in s + [u] <==> v in s || v == u;
    }
  }

  lemma Unaffected(color: seq<Color>, c: Color, s: seq<nat>, u: nat, d: Color)
    requires u < |color| && color[u] != c && d != c && Lists(color, c, s)
    ensures Lists(color[u := d], c, s)
  {
  }

  lemma Shorter(g: Graph, stack: seq<Frame>)
    requires InRange(g, stack) && Linked(g, stack) && stack != []
    ensures InRange(g, stack[..|stack| - 1]) && Linked(g, stack[..|stack| - 1])
    ensures Nodes(stack) == Nodes(stack[..|stack| - 1]) + [stack[|stack| - 1].node]
  {
  }

  // The top of the stack has no children left: it is finished.
  lemma Finished(g: Graph, color: seq<Color>, order: seq<nat>, stack: seq<Frame>)
    requires WellFormed(g) && Searching(g, color, order, stack) && stack != []
    ensures var n := |stack| - 1;
            var u := stack[n].node;
            && u < |g| && Searching(g, color[u := Black], order + [u], stack[..n])
            && Whites(color[u := Black]) == Whites(color)
  {
    hide Lists, InRange, Linked, WellFormed, Whites;
    var n := |stack| - 1;
    var u := stack[n].node;
    TopGray(g, color, order, stack);
    Shorter(g, stack);
    SameWhites(color, u, Black);
    Moved(color, Gray, Black, Nodes(stack[..n]), order, u);
  }

  lemma TopGray(g: Graph, color: seq<Color>, order: seq<nat>, stack: seq<Frame>)
    requires Searching(g, color, order, stack) && stack != []
    ensures stack[|stack| - 1].node < |g| && color[stack[|stack| - 1].node] == Gray
  {
    hide Linked;
    assert Nodes(stack)[|stack| - 1] in Nodes(stack);
  }

  lemma FinishedLast(g: Graph, color: seq<Color>, order: seq<nat>, stack: seq<Frame>)
    requires WellFormed(g) && Searching(g, color, order, stack) && stack != []
    requires stack[|stack| - 1].next == |g[stack[|stack| - 1].node]|
    requires LookedAt(g, color, stack) && ChildrenFirst(g, order)
    ensures var n := |stack| - 1;
            var u := stack[n].node;
            && LookedAt(g, color[u := Black], stack[..n]) && ChildrenFirst(g, order + [u])
  {
    hide Linked, Leads;
    var n := |stack| - 1;
    var u := stack[n].node;
    var order2 := order + [u];
    BelowTop(g, color, stack);
    forall i, j | 0 <= i < |order2| && order2[i] < |g| && 0 <= j < |g[order2[i]]|
      ensures FinishedBefore(g, order2, i, g[order2[i]][j])
    {
      if i < |order| {
        assert order2[..i] == order[..i];
        assert FinishedBefore(g, order, i, g[order[i]][j]);
      } else {
        assert order2[..i] == order;
        assert Settled(g, color, u, g[stack[n].node][j]);
      }
    }
  }

  lemma BelowTop(g: Graph, color: seq<Color>, stack: seq<Frame>)
    requires |color| == |g| && WellFormed(g) && InRange(g, stack) && LookedAt(g, color, stack) && Linked(g, stack) && stack != []
    ensures var n := |stack| - 1;
            InRange(g, stack[..n]) && LookedAt(g, color[stack[n].node := Black], stack[..n])
  {
    hide Leads;
    var n := |stack| - 1;
    var color2 := color[stack[n].node := Black];
    forall i, j | 0 <= i < n && 0 <= j < stack[..n][i].next - (if i < n - 1 then 1 else 0)
      ensures Settled(g, color2, stack[..n][i].node, g[stack[..n][i].node][j])
    {
      if i == n - 1 && j == stack[i].next - 1 {
        assert g[stack[i].node][j] == stack[n].node;
      } else {
        assert Settled(g, color, stack[i].node, g[stack[i].node][j]);
      }
    }
  }

  // The next child has been met before.
  lemma Passed(g: Graph, color: seq<Color>, order: seq<nat>, stack: seq<Frame>)
    requires WellFormed(g) && Searching(g, color, order, stack) && stack != []
    requires stack[|stack| - 1].next < |g[stack[|stack| - 1].node]|
    ensures var n := |stack| - 1;
            var stack2 := stack[n := Frame(stack[n].node, stack[n].next + 1)];
            && Searching(g, color, order, stack2)
            && Left(g, stack2) == Left(g, stack) - 1
  {
    hide Lists, WellFormed;
    var n := |stack| - 1;
    var stack2 := stack[n := Frame(stack[n].node, stack[n].next + 1)];
    assert stack2[..n] == stack[..n];
    assert Nodes(stack2) == Nodes(stack);
  }

  lemma PassedLooked(g: Graph, color: seq<Color>, order: seq<nat>, stack: seq<Frame>)
    requires WellFormed(g) && Searching(g, color, order, stack) && stack != []
    requires stack[|stack| - 1].next < |g[stack[|stack| - 1].node]|
    requires color[g[stack[|stack| - 1].node][stack[|stack| - 1].next]] != White
    requires LookedAt(g, color, stack)
    ensures var n := |stack| - 1;
            var stack2 := stack[n := Frame(stack[n].node, stack[n].next + 1)];
            InRange(g, stack2) && LookedAt(g, color, stack2)
  {
    hide Lists, Linked, Leads;
    var n := |stack| - 1;
    var u, v := stack[n].node, g[stack[n].node][stack[n].next];
    var stack2 := stack[n := Frame(u, stack[n].next + 1)];
    if color[v] == Gray {
      GrayLeads(g, color, order, stack, v);
    }
    forall i, j | 0 <= i < |stack2| && 0 <= j < stack2[i].next - (if i < |stack2| - 1 then 1 else 0)
      ensures Settled(g, color, stack2[i].node, g[stack2[i].node][j])
    {
      if i == n && j == stack[n].next {
        assert Settled(g, color, u, v);
      } else {
        assert Settled(g, color, stack[i].node, g[stack[i].node][j]);
      }
    }
  }

  // The next child is new: it goes on the stack.
  lemma Entered(g: Graph, color: seq<Color>, order: seq<nat>, stack: seq<Frame>)
    requires WellFormed(g) && Searching(g, color, order, stack) && stack != []
    requires stack[|stack| - 1].next < |g[stack[|stack| - 1].node]|
    requires color[g[stack[|stack| - 1].node][stack[|stack| - 1].next]] == White
    ensures var n := |stack| - 1;
            var v := g[stack[n].node][stack[n].next];
            var stack2 := stack[n := Frame(stack[n].node, stack[n].next + 1)] + [Frame(v, 0)];
            && Searching(g, color[v := Gray], order, stack2)
            && Whites(color[v := Gray]) == Whites(color) - 1
  {
    hide Lists, Whites;
    var n := |stack| - 1;
    var v := g[stack[n].node][stack[n].next];
    var stack2 := stack[n := Frame(stack[n].node, stack[n].next + 1)] + [Frame(v, 0)];
    OneLessWhite(color, v, Gray);
    Joined(color, Gray, Nodes(stack), v);
    Unaffected(color, Black, order, v, Gray);
    assert Nodes(stack2) == Nodes(stack) + [v];
  }

  lemma EnteredLooked(g: Graph, color: seq<Color>, stack: seq<Frame>)
    requires WellFormed(g) && |color| == |g| && InRange(g, stack) && LookedAt(g, color, stack) && stack != []
    requires stack[|stack| - 1].next < |g[stack[|stack| - 1].node]|
    requires color[g[stack[|stack| - 1].node][stack[|stack| - 1].next]] == White
    ensures var n := |stack| - 1;
            var v := g[stack[n].node][stack[n].next];
            var stack2 := stack[n := Frame(stack[n].node, stack[n].next + 1)] + [Frame(v, 0)];
            InRange(g, stack2) && LookedAt(g, color[v := Gray], stack2)
  {
    hide Leads;
    var n := |stack| - 1;
    var v := g[stack[n].node][stack[n].next];
    var stack2 := stack[n := Frame(stack[n].node, stack[n].next + 1)] + [Frame(v, 0)];
    var color2 := color[v := Gray];
    forall i, j | 0 <= i < |stack2| && 0 <= j < stack2[i].next - (if i < |stack2| - 1 then 1 else 0)
      ensures Settled(g, color2, stack2[i].node, g[stack2[i].node][j])
    {
      assert i <= n && Settled(g, color, stack[i].node, g[stack[i].node][j]);
    }
  }

  /* ---------- The search ---------- */

  // Visits everything that can be reached from `first` and has not been met.
  method Visit(g: Graph, first: nat, color: seq<Color>, order: seq<nat>) returns (color2: seq<Color>, order2: seq<nat>)
    requires WellFormed(g) && Searching(g, color, order, []) && first < |g| && color[first] == White
    ensures Searching(g, color2, order2, []) && color2[first] == Black
    ensures forall v :: 0 <= v < |g| && color[v] == Black ==> color2[v] == Black
    ensures ChildrenFirst(g, order) ==> ChildrenFirst(g, order2)
  {
    hide Lists, Linked, WellFormed, Whites, LookedAt, ChildrenFirst;
    var stack := [Frame(first, 0)];
    color2, order2 := color[first := Gray], order;
    FirstEntered(g, color, order, first);
    while stack != []
      invariant Searching(g, color2, order2, stack)
      invariant color2[first] != White
      invariant forall v :: 0 <= v < |g| && color[v] == Black ==> color2[v] == Black
      invariant ChildrenFirst(g, order) ==> LookedAt(g, color2, stack) && ChildrenFirst(g, order2)
      decreases Whites(color2), Left(g, stack), |stack|
    {
      var n := |stack| - 1;
      var frame := stack[n];
      TopGray(g, color2, order2, stack);
      if frame.next == |g[frame.node]| {
        Finished(g, color2, order2, stack);
        LeftLess(g, stack);
        if ChildrenFirst(g, order) {
          FinishedLast(g, color2, order2, stack);
        }
        color2 := color2[frame.node := Black];
        order2 := order2 + [frame.node];
        stack := stack[..n];
      } else {
        var next := g[frame.node][frame.next];
        ChildInRange(g, frame.node, frame.next);
        var advanced := stack[n := Frame(frame.node, frame.next + 1)];
        if color2[next] == White {
          Entered(g, color2, order2, stack);
          if ChildrenFirst(g, order) {
            EnteredLooked(g, color2, stack);
          }
          color2 := color2[next := Gray];
          stack := advanced + [Frame(next, 0)];
        } else {
          Passed(g, color2, order2, stack);
          if ChildrenFirst(g, order) {
            PassedLooked(g, color2, order2, stack);
          }
          stack := advanced;
        }
      }
    }
    NoneGray(g, color2, order2, first);
  }

  lemma FirstEntered(g: Graph, color: seq<Color>, order: seq<nat>, first: nat)
    requires WellFormed(g) && Searching(g, color, order, []) && first < |g| && color[first] == White
    ensures Searching(g, color[first := Gray], order, [Frame(first, 0)])
    ensures LookedAt(g, color[first := Gray], [Frame(first, 0)])
  {
    Joined(color, Gray, [], first);
    Unaffected(color, Black, order, first, Gray);
    assert Nodes([Frame(first, 0)]) == [] + [first];
    assert Nodes([]) == [];
  }

  lemma LeftLess(g: Graph, stack: seq<Frame>)
    requires InRange(g, stack) && stack != []
    ensures InRange(g, stack[..|stack| - 1]) && Left(g, stack[..|stack| - 1]) <= Left(g, stack)
  {
  }

  lemma ChildInRange(g: Graph, u: nat, j: nat)
    requires WellFormed(g) && u < |g| && j < |g[u]|
    ensures g[u][j] < |g|
  {
  }

  lemma NoneGray(g: Graph, color: seq<Color>, order: seq<nat>, first: nat)
    requires Searching(g, color, order, []) && first < |g| && color[first] != White
    ensures color[first] == Black
  {
    assert Nodes([]) == [];
    assert first !in Nodes([]);
  }

  // Every table, listed once.
  ghost predicate Complete(g: Graph, order: seq<nat>) {
    Distinct(order) && forall v: nat :: v in order <==> v < |g|
  }

  /** The order in which all tables are finished: children before their parents, but for those that lead back. */
  method FinishOrder(g: Graph) returns (order: seq<nat>)
    requires WellFormed(g)
    ensures Complete(g, order)
    ensures ChildrenFirst(g, order)
  {
    hide Linked, WellFormed, ChildrenFirst;
    var color := seq(|g|, i => White);
    order := [];
    assert Searching(g, color, [], []) by {
      NothingSearched(g);
    }
    NoChildrenYet(g);
    var id := 0;
    while id < |g|
      invariant id <= |g| && Searching(g, color, order, [])
      invariant forall v :: 0 <= v < id ==> color[v] == Black
      invariant ChildrenFirst(g, order)
    {
      if color[id] == White {
        color, order := Visit(g, id, color, order);
      } else {
        NoneGray(g, color, order, id);
      }
      id := id + 1;
    }
  }

  lemma NothingSearched(g: Graph)
    ensures Searching(g, seq(|g|, i => White), [], [])
  {
    assert Nodes([]) == [];
  }

  lemma NoChildrenYet(g: Graph)
    ensures ChildrenFirst(g, [])
  {
  }

  /* ---------- Ranks ---------- */

  function Reversed(s: seq<nat>): (r: seq<nat>)
    ensures |r| == |s| && forall i :: 0 <= i < |s| ==> r[i] == s[|s| - 1 - i]
  {
    seq(|s|, i requires 0 <= i < |s| => s[|s| - 1 - i])
  }

  // Where each table stands in an order that lists them all.
  ghost predicate Places(g: Graph, order: seq<nat>, place: seq<nat>) {
    && |order| == |place| == |g|
    && (forall i :: 0 <= i < |order| ==> order[i] < |g| && place[order[i]] == i)
    && (forall v: nat :: v < |g| ==> place[v] < |g| && order[place[v]] == v)
  }

  // An edge that goes forward in the order; the others close a cycle.
  predicate Forward(g: Graph, place: seq<nat>, u: nat, v: nat) {
    IsEdge(g, u, v) && u < |place| && v < |place| && place[u] < place[v]
  }

  // The ranks of longest paths over forward edges: each table is one past the last of its parents, and
  // a table without parents has rank 0.
  ghost predicate LongestPaths(g: Graph, place: seq<nat>, rank: seq<nat>) {
    && |rank| == |g|
    && (forall u: nat, v: nat :: Forward(g, place, u, v) ==> v < |rank| && rank[v] > rank[u])
    && (forall v: nat :: v < |g| ==> rank[v] == 0 || exists u: nat :: Forward(g, place, u, v) && rank[v] == rank[u] + 1)
  }

  // The ranks once the first `i` tables have moved their children.
  ghost predicate RankedUpTo(g: Graph, place: seq<nat>, rank: seq<nat>, i: nat) {
    && |rank| == |place| == |g|
    && (forall u: nat, v: nat :: Forward(g, place, u, v) && place[u] < i ==> v < |rank| && rank[v] > rank[u])
    && (forall v: nat :: v < |g| ==>
          rank[v] == 0 || exists u: nat :: Forward(g, place, u, v) && place[u] < i && rank[v] == rank[u] + 1)
  }

  // The ranks once table `id` has moved its first `j` children.
  ghost predicate Moving(g: Graph, place: seq<nat>, rank: seq<nat>, next: seq<nat>, id: nat, j: nat)
    requires WellFormed(g) && id < |g| == |place| == |rank| && j <= |g[id]|
  {
    && |next| == |g|
    && (forall v: nat :: v < |g| && place[v] <= place[id] ==> next[v] == rank[v])
    && (forall v: nat :: v < |g| ==> next[v] >= rank[v])
    && (forall v: nat :: v < |g| ==> next[v] == rank[v] || (Forward(g, place, id, v) && next[v] == rank[id] + 1))
    && (forall k :: 0 <= k < j && place[g[id][k]] > place[id] ==> next[g[id][k]] > rank[id])
  }

  /** Longest-path ranks, from the tables taken in their order. */
  method Ranks(g: Graph, order: seq<nat>, place: seq<nat>) returns (rank: seq<nat>)
    requires WellFormed(g) && Places(g, order, place)
    ensures LongestPaths(g, place, rank)
  {
    rank := seq(|g|, i => 0);
    var i := 0;
    while i < |order|
      invariant i <= |order| && RankedUpTo(g, place, rank, i)
    {
      ghost var was := rank;
      rank := RankChildren(g, place, order[i], rank);
      StillRanked(g, order, place, i, was, rank);
      i := i + 1;
    }
  }

  // Moves the children of one table past it.
  method RankChildren(g: Graph, place: seq<nat>, id: nat, rank: seq<nat>) returns (next: seq<nat>)
    requires WellFormed(g) && id < |g| == |place| == |rank|
    ensures Moving(g, place, rank, next, id, |g[id]|)
  {
    next := rank;
    var j := 0;
    while j < |g[id]|
      invariant j <= |g[id]| && Moving(g, place, rank, next, id, j)
    {
      var child := g[id][j];
      if place[child] > place[id] && next[child] < next[id] + 1 {
        next := next[child := next[id] + 1];
        assert Forward(g, place, id, child);
      }
      j := j + 1;
    }
  }

  lemma StillRanked(g: Graph, order: seq<nat>, place: seq<nat>, i: nat, rank: seq<nat>, next: seq<nat>)
    requires WellFormed(g) && Places(g, order, place) && i < |order| && RankedUpTo(g, place, rank, i)
    requires Moving(g, place, rank, next, order[i], |g[order[i]]|)
    ensures RankedUpTo(g, place, next, i + 1)
  {
    forall u: nat, v: nat | Forward(g, place, u, v) && place[u] < i + 1 ensures v < |next| && next[v] > next[u] {
      if place[u] == i {
        assert u == order[i];
        var k :| 0 <= k < |g[u]| && g[u][k] == v;
        assert place[g[u][k]] > place[u];
      } else {
        assert rank[v] > rank[u];
      }
    }
    forall v: nat | v < |g|
      ensures next[v] == 0 || exists u: nat :: Forward(g, place, u, v) && place[u] < i + 1 && next[v] == next[u] + 1
    {
      if next[v] == rank[v] && rank[v] != 0 {
        var u: nat :| Forward(g, place, u, v) && place[u] < i && rank[v] == rank[u] + 1;
        assert next[u] == rank[u];
      } else if next[v] != 0 {
        assert Forward(g, place, order[i], v) && next[order[i]] == rank[order[i]];
      }
    }
  }

  /** Every edge that lies on no cycle goes forward in the reversed finish order. */
  lemma AllForward(g: Graph, order: seq<nat>, place: seq<nat>)
    requires WellFormed(g) && Complete(g, order) && ChildrenFirst(g, order) && Places(g, Reversed(order), place)
    ensures forall u: nat, v: nat :: IsEdge(g, u, v) ==> Forward(g, place, u, v) || Leads(g, v, u)
  {
    hide Leads;
    forall u: nat, v: nat | IsEdge(g, u, v) ensures Forward(g, place, u, v) || Leads(g, v, u) {
      var i := |order| - 1 - place[u];
      assert order[i] == Reversed(order)[place[u]] == u;
      var j :| 0 <= j < |g[u]| && g[u][j] == v;
      assert FinishedBefore(g, order, i, g[order[i]][j]);
      if v in order[..i] {
        var k :| 0 <= k < i && order[..i][k] == v;
        assert Reversed(order)[|order| - 1 - k] == v;
      }
    }
  }

  /** Where each table stands in the reversed finish order. */
  method PlacesOf(g: Graph, order: seq<nat>) returns (place: seq<nat>)
    requires Complete(g, order)
    ensures Places(g, Reversed(order), place)
  {
    var reversed := Reversed(order);
    CompleteLength(g, order);
    ReversedDistinct(order);
    place := seq(|g|, i => 0);
    var i := 0;
    while i < |reversed|
      invariant i <= |reversed| && |place| == |g|
      invariant forall k :: 0 <= k < i ==> reversed[k] < |g|
      invariant forall k :: 0 <= k < i ==> place[reversed[k]] == k
    {
      assert order[|order| - 1 - i] in order;
      assert forall k :: 0 <= k < i ==> reversed[k] != reversed[i];
      place := place[reversed[i] := i];
      i := i + 1;
    }
    forall v: nat | v < |g| ensures place[v] < |g| && reversed[place[v]] == v {
      assert v in order;
      var k :| 0 <= k < |order| && order[k] == v;
      assert reversed[|order| - 1 - k] == v;
    }
  }

  lemma ReversedDistinct(s: seq<nat>)
    requires Distinct(s)
    ensures Distinct(Reversed(s))
  {
    var r := Reversed(s);
    forall i, j | 0 <= i < j < |r| ensures r[i] != r[j] {
      assert s[|s| - 1 - j] != s[|s| - 1 - i];
    }
  }

  function Elements(s: seq<nat>): set<nat> {
    if s == [] then {} else Elements(s[..|s| - 1]) + {s[|s| - 1]}
  }

  lemma {:induction false} ElementsCounted(s: seq<nat>)
    ensures forall v: nat :: v in Elements(s) <==> v in s
    ensures Distinct(s) ==> |Elements(s)| == |s|
  {
    if s != [] {
      var n := |s| - 1;
      ElementsCounted(s[..n]);
      assert s == s[..n] + [s[n]];
      if Distinct(s) {
        LastIsNew(s[..n], s[n]);
      }
    }
  }

  function Below(n: nat): set<nat> {
    if n == 0 then {} else Below(n - 1) + {n - 1}
  }

  lemma {:induction false} BelowCounted(n: nat)
    ensures |Below(n)| == n && forall v: nat :: v in Below(n) <==> v < n
  {
    if n > 0 {
      BelowCounted(n - 1);
    }
  }

  lemma CompleteLength(g: Graph, order: seq<nat>)
    requires Complete(g, order)
    ensures |order| == |g|
  {
    ElementsCounted(order);
    BelowCounted(|g|);
    assert Elements(order) == Below(|g|);
  }
}
