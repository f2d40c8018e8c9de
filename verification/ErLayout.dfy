/**
 `autoLayout` of packages/db-admin/src/er.ts: ranks become layers from left to right, and each layer is
 packed into columns. Coordinates are real numbers; the order inside a layer is any rearrangement.
 */
module ErLayout {
  import opened Wrappers
  import opened ErGraph

  const NODE_WIDTH := 230.0
  const HEADER_HEIGHT := 30
  const ROW_HEIGHT := 20
  const MAX_VISIBLE_COLUMNS := 14
  const MAX_LAYER_HEIGHT := 2400.0

  datatype Box = Box(x: real, y: real, width: real, height: real)

  datatype Gap = Gap(x: real, y: real)

  // The height of a table with so many columns.
  function Height(columns: nat): real {
    var rows := if columns < MAX_VISIBLE_COLUMNS then columns else MAX_VISIBLE_COLUMNS;
    (HEADER_HEIGHT + ROW_HEIGHT * rows + (if columns > MAX_VISIBLE_COLUMNS then ROW_HEIGHT else 0) + 6) as real
  }

  predicate Apart(a: Box, b: Box) {
    a.x + a.width <= b.x || b.x + b.width <= a.x || a.y + a.height <= b.y || b.y + b.height <= a.y
  }

  predicate AllApart(boxes: map<nat, Box>) {
    forall u, v :: u in boxes && v in boxes && u != v ==> Apart(boxes[u], boxes[v])
  }

  // The size of a table: 20 for each column, or, beyond fourteen, for those and one more line.
  predicate IsSize(columns: nat, box: Box) {
    box.width == 230.0 && box.height == if columns <= 14 then (36 + 20 * columns) as real else 336.0
  }

  // Every box has the size of its table.
  predicate Sized(tables: seq<nat>, boxes: map<nat, Box>) {
    forall v :: v in boxes ==> v < |tables| && IsSize(tables[v], boxes[v])
  }

  // Boxes of one column lie a gap apart.
  predicate Spaced(boxes: map<nat, Box>, gap: real) {
    forall u, v :: u in boxes && v in boxes && u != v && boxes[u].x == boxes[v].x ==>
      boxes[u].y + boxes[u].height + gap <= boxes[v].y || boxes[v].y + boxes[v].height + gap <= boxes[u].y
  }

  // Every box ends at least a gap before `x`.
  predicate LeftOf(boxes: map<nat, Box>, x: real, gap: real) {
    forall v :: v in boxes ==> boxes[v].x + boxes[v].width + gap <= x
  }

  /* ---------- Layers ---------- */

  // The tables by their ranks: each in the layer of its rank, once.
  ghost predicate Layered(layers: map<nat, seq<nat>>, rank: seq<nat>, n: nat) {
    && n <= |rank|
    && (forall v: nat :: v < n ==> rank[v] in layers && v in layers[rank[v]])
    && (forall k :: k in layers ==> Distinct(layers[k]) && forall v :: v in layers[k] ==> v < n && rank[v] == k)
  }

  method LayersOf(rank: seq<nat>) returns (layers: map<nat, seq<nat>>)
    ensures Layered(layers, rank, |rank|)
  {
    layers := map[];
    var id := 0;
    while id < |rank|
      invariant id <= |rank| && Layered(layers, rank, id)
    {
      var key := rank[id];
      var members := if key in layers then layers[key] else [];
      assert id !in members;
      layers := layers[key := members + [id]];
      id := id + 1;
    }
  }

  predicate Ascending(keys: seq<nat>) {
    forall i, j :: 0 <= i < j < |keys| ==> keys[i] < keys[j]
  }

  method InsertKey(keys: seq<nat>, key: nat) returns (r: seq<nat>)
    requires Ascending(keys) && key !in keys
    ensures Ascending(r) && forall k :: k in r <==> k in keys || k == key
  {
    var i := 0;
    while i < |keys| && keys[i] < key
      invariant i <= |keys| && forall j :: 0 <= j < i ==> keys[j] < key
    {
      i := i + 1;
    }
    r := keys[..i] + [key] + keys[i..];
    forall k ensures k in r <==> k in keys || k == key {
      assert keys == keys[..i] + keys[i..];
    }
  }

  method SortedKeys(layers: map<nat, seq<nat>>) returns (keys: seq<nat>)
    ensures Ascending(keys) && forall k :: k in keys <==> k in layers
  {
    keys := [];
    var left := layers.Keys;
    while left != {}
      invariant Ascending(keys) && left <= layers.Keys
      invariant forall k :: k in keys <==> k in layers && k !in left
      decreases |left|
    {
      var key :| key in left;
      keys := InsertKey(keys, key);
      left := left - {key};
    }
  }

  // How the tables of a layer are put in order.
  type Arrangement = (nat, seq<nat>) -> seq<nat>

  ghost predicate Rearranges(arrange: Arrangement) {
    forall key: nat, members: seq<nat> :: multiset(arrange(key, members)) == multiset(members)
  }

  lemma SameMembers(a: seq<nat>, b: seq<nat>)
    requires multiset(a) == multiset(b)
    ensures forall v :: v in a <==> v in b
    ensures Distinct(a) ==> Distinct(b)
  {
    forall v ensures v in a <==> v in b {
      assert v in a <==> v in multiset(a);
      assert v in b <==> v in multiset(b);
    }
    if Distinct(a) {
      forall v: nat ensures multiset(a)[v] <= 1 {
        OnceIfDistinct(a, v);
      }
      DistinctIfOnce(b);
    }
  }

  lemma {:induction false} OnceIfDistinct(s: seq<nat>, v: nat)
    requires Distinct(s)
    ensures multiset(s)[v] <= 1
  {
    if s != [] {
      var n := |s| - 1;
      assert s == s[..n] + [s[n]];
      OnceIfDistinct(s[..n], v);
      LastIsNew(s[..n], s[n]);
    }
  }

  lemma DistinctIfOnce(s: seq<nat>)
    requires forall v :: multiset(s)[v] <= 1
    ensures Distinct(s)
  {
    forall i, j | 0 <= i < j < |s| ensures s[i] != s[j] {
      assert s == s[..j] + s[j..];
      assert s[..j][i] == s[i] && s[j..][0] == s[j];
      if s[i] == s[j] {
        TwoPlaces(s[..j], s[j..], s[i]);
      }
    }
  }

  lemma TwoPlaces(a: seq<nat>, b: seq<nat>, v: nat)
    requires v in a && v in b
    ensures multiset(a + b)[v] >= 2
  {
    assert multiset(a + b) == multiset(a) + multiset(b);
  }

  /* ---------- Packing ---------- */

  // The boxes of the layer being packed: in columns before the current one, or above in it.
  predicate InColumns(boxes: map<nat, Box>, before: map<nat, Box>, left: real, columnX: real, columnWidth: real, y: real, gap: real) {
    forall v :: v in boxes && v !in before ==>
      && left <= boxes[v].x && boxes[v].x + boxes[v].width <= columnX + columnWidth
      && (boxes[v].x + boxes[v].width <= columnX || (boxes[v].x == columnX && boxes[v].y + boxes[v].height + gap <= y))
  }

  // One table below another: a gap below it in its column, or, where that would end beyond 2400, at the top
  // of a new column.
  predicate Below(a: Box, b: Box, gap: Gap) {
    var y := a.y + a.height + gap.y;
    if y + b.height > 2400.0 then b.y == 0.0 && b.x == a.x + 230.0 + gap.x / 2.0 else b.y == y && b.x == a.x
  }

  // The tables of a layer in their order, from the top of its first column on.
  predicate InOrder(boxes: map<nat, Box>, members: seq<nat>, x: real, gap: Gap) {
    && (forall i :: 0 <= i < |members| ==> members[i] in boxes)
    && (members != [] ==> boxes[members[0]].x == x && boxes[members[0]].y == 0.0)
    && (forall i :: 0 <= i < |members| - 1 ==> Below(boxes[members[i]], boxes[members[i + 1]], gap))
  }

  // Where the next column, and the next layer, begin.
  predicate EndsAt(boxes: map<nat, Box>, members: seq<nat>, x: real, next: real) {
    if members == [] then next == x else members[|members| - 1] in boxes && next == boxes[members[|members| - 1]].x + 230.0
  }

  /** Packs one layer to the right of everything before it, wrapped into columns when it is tall. */
  method PackLayer(tables: seq<nat>, members: seq<nat>, before: map<nat, Box>, x: real, gap: Gap)
    returns (boxes: map<nat, Box>, next: real)
    requires gap.x >= 0.0 && gap.y >= 0.0
    requires Distinct(members) && (forall v :: v in members ==> v < |tables| && v !in before)
    requires AllApart(before) && Sized(tables, before) && Spaced(before, gap.y) && LeftOf(before, x, gap.x)
    ensures AllApart(boxes) && Sized(tables, boxes) && Spaced(boxes, gap.y) && LeftOf(boxes, next, gap.x)
    ensures InOrder(boxes, members, x, gap) && EndsAt(boxes, members, x, next - gap.x)
    ensures forall v :: v in boxes <==> v in before || v in members
    ensures forall v :: v in before ==> boxes[v] == before[v]
    ensures forall v :: v in members ==> boxes[v].x >= x
  {
    hide Packing, Height, AllApart, Sized, Spaced, LeftOf, InOrder, EndsAt;
    boxes := before;
    var y, columnX, columnWidth := 0.0, x, 0.0;
    var i := 0;
    assert members[..0] == [];
    PackStart(tables, before, x, gap);
    while i < |members|
      invariant i <= |members| && Packing(tables, members[..i], before, boxes, x, columnX, columnWidth, y, gap)
    {
      var id := members[i];
      assert id in members && id !in members[..i];
      assert members[..i + 1] == members[..i] + [id];
      var height := Height(tables[id]);
      ghost var top, left, width := y, columnX, columnWidth;
      if y > 0.0 && y + height > MAX_LAYER_HEIGHT {
        columnX := columnX + columnWidth + gap.x / 2.0;
        y := 0.0;
        columnWidth := 0.0;
      }
      PackOne(tables, members[..i], id, before, boxes, x, left, width, top, columnX, columnWidth, y, gap);
      boxes := boxes[id := Box(columnX, y, NODE_WIDTH, height)];
      y := y + height + gap.y;
      columnWidth := if columnWidth < NODE_WIDTH then NODE_WIDTH else columnWidth;
      i := i + 1;
    }
    assert members[..i] == members;
    next := columnX + columnWidth + gap.x;
    PackDone(tables, members, before, boxes, x, columnX, columnWidth, y, gap);
  }

  lemma PackStart(tables: seq<nat>, before: map<nat, Box>, x: real, gap: Gap)
    requires AllApart(before) && Sized(tables, before) && Spaced(before, gap.y)
    ensures Packing(tables, [], before, before, x, x, 0.0, 0.0, gap)
  {
    hide AllApart, Sized, Spaced;
  }

  lemma PackDone(tables: seq<nat>, members: seq<nat>, before: map<nat, Box>, boxes: map<nat, Box>, x: real, columnX: real,
                 columnWidth: real, y: real, gap: Gap)
    requires Packing(tables, members, before, boxes, x, columnX, columnWidth, y, gap) && LeftOf(before, x, gap.x)
    requires gap.x >= 0.0 && forall v :: v in members ==> v !in before
    ensures AllApart(boxes) && Sized(tables, boxes) && Spaced(boxes, gap.y) && LeftOf(boxes, columnX + columnWidth + gap.x, gap.x)
    ensures InOrder(boxes, members, x, gap) && EndsAt(boxes, members, x, columnX + columnWidth)
    ensures forall v :: v in boxes <==> v in before || v in members
    ensures forall v :: v in before ==> boxes[v] == before[v]
    ensures forall v :: v in members ==> boxes[v].x >= x
  {
    hide AllApart, Sized, Spaced, InOrder, EndsAt;
  }

  // The tables `done` of a layer are packed, and the next one goes to `y` in the column at `columnX`.
  ghost predicate Packing(tables: seq<nat>, done: seq<nat>, before: map<nat, Box>, boxes: map<nat, Box>, x: real, columnX: real,
                    columnWidth: real, y: real, gap: Gap)
  {
    && columnX >= x && columnWidth >= 0.0
    && (forall v :: v in boxes <==> v in before || v in done) && (forall v :: v in before ==> boxes[v] == before[v])
    && Sized(tables, boxes) && AllApart(boxes) && Spaced(boxes, gap.y)
    && InColumns(boxes, before, x, columnX, columnWidth, y, gap.y)
    && InOrder(boxes, done, x, gap) && EndsAt(boxes, done, x, columnX + columnWidth)
    && (if done == [] then y == 0.0 && columnX == x
        else columnWidth == 230.0 && y > 0.0 && y == boxes[done[|done| - 1]].y + boxes[done[|done| - 1]].height + gap.y)
  }

  lemma PackOne(tables: seq<nat>, done: seq<nat>, id: nat, before: map<nat, Box>, boxes: map<nat, Box>, x: real, left: real,
                width: real, top: real, columnX: real, columnWidth: real, y: real, gap: Gap)
    requires gap.x >= 0.0 && gap.y >= 0.0 && id < |tables| && id !in before && id !in done && LeftOf(before, x, gap.x)
    requires Packing(tables, done, before, boxes, x, left, width, top, gap)
    requires if top > 0.0 && top + Height(tables[id]) > MAX_LAYER_HEIGHT
             then columnX == left + width + gap.x / 2.0 && columnWidth == 0.0 && y == 0.0
             else columnX == left && columnWidth == width && y == top
    ensures Packing(tables, done + [id], before, boxes[id := Box(columnX, y, NODE_WIDTH, Height(tables[id]))], x, columnX,
                    if columnWidth < NODE_WIDTH then NODE_WIDTH else columnWidth, y + Height(tables[id]) + gap.y, gap)
  {
    hide AllApart, Spaced, InColumns, InOrder, Height;
    var height := Height(tables[id]);
    var box := Box(columnX, y, NODE_WIDTH, height);
    HeightIs(tables[id], box);
    StillInColumns(boxes, before, x, left, width, top, columnX, columnWidth, y, gap);
    Placed(boxes, before, id, box, x, gap, columnWidth);
    StaysSized(tables, boxes, id, box);
    NextInOrder(boxes, done, id, box, x, gap);
    NextInColumns(boxes, before, id, box, x, columnWidth, gap);
  }

  lemma HeightIs(columns: nat, box: Box)
    requires box.width == NODE_WIDTH && box.height == Height(columns)
    ensures IsSize(columns, box) && box.height > 0.0
  {
  }

  lemma StaysSized(tables: seq<nat>, boxes: map<nat, Box>, id: nat, box: Box)
    requires Sized(tables, boxes) && id < |tables| && IsSize(tables[id], box)
    ensures Sized(tables, boxes[id := box])
  {
    hide IsSize;
  }

  // A new column begins behind the one before.
  lemma StillInColumns(boxes: map<nat, Box>, before: map<nat, Box>, x: real, left: real, width: real, top: real,
                       columnX: real, columnWidth: real, y: real, gap: Gap)
    requires InColumns(boxes, before, x, left, width, top, gap.y) && gap.x >= 0.0
    requires (columnX == left && columnWidth == width && y == top) || columnX == left + width + gap.x / 2.0
    requires columnWidth >= 0.0 && width >= 0.0
    ensures InColumns(boxes, before, x, columnX, columnWidth, y, gap.y)
  {
  }

  // The next place of a column is free, and a gap below what is above it.
  lemma Placed(boxes: map<nat, Box>, before: map<nat, Box>, id: nat, box: Box, x: real, gap: Gap, columnWidth: real)
    requires AllApart(boxes) && Spaced(boxes, gap.y) && id !in boxes && gap.x >= 0.0 && gap.y >= 0.0
    requires LeftOf(before, x, gap.x) && x <= box.x
    requires forall v :: v in before ==> v in boxes && boxes[v] == before[v]
    requires forall v :: v in boxes ==> boxes[v].width > 0.0
    requires InColumns(boxes, before, x, box.x, columnWidth, box.y, gap.y)
    ensures AllApart(boxes[id := box]) && Spaced(boxes[id := box], gap.y)
  {
    forall v | v in boxes
      ensures Apart(boxes[v], box) && (boxes[v].x == box.x ==> boxes[v].y + boxes[v].height + gap.y <= box.y)
    {
      if v in before {
        assert boxes[v].x + boxes[v].width + gap.x <= x;
      }
    }
  }

  lemma NextInColumns(boxes: map<nat, Box>, before: map<nat, Box>, id: nat, box: Box, x: real, columnWidth: real, gap: Gap)
    requires InColumns(boxes, before, x, box.x, columnWidth, box.y, gap.y) && box.width == 230.0 && x <= box.x
    requires columnWidth >= 0.0 && gap.y >= 0.0 && box.height > 0.0
    ensures InColumns(boxes[id := box], before, x, box.x, if columnWidth < 230.0 then 230.0 else columnWidth,
                      box.y + box.height + gap.y, gap.y)
  {
  }

  lemma NextInOrder(boxes: map<nat, Box>, done: seq<nat>, id: nat, box: Box, x: real, gap: Gap)
    requires InOrder(boxes, done, x, gap) && id !in done
    requires if done == [] then box.x == x && box.y == 0.0 else Below(boxes[done[|done| - 1]], box, gap)
    ensures InOrder(boxes[id := box], done + [id], x, gap)
  {
    var all := done + [id];
    forall i | 0 <= i < |all| - 1 ensures Below(boxes[id := box][all[i]], boxes[id := box][all[i + 1]], gap) {
      assert all[i] == done[i] && done[i] in done;
    }
  }

  // Boxes of lower ranks end at least a gap before those of higher ranks begin.
  predicate ByRank(boxes: map<nat, Box>, rank: seq<nat>, gap: real) {
    forall u, v :: u in boxes && v in boxes && u < |rank| && v < |rank| && rank[u] < rank[v] ==>
      boxes[u].x + boxes[u].width + gap <= boxes[v].x
  }

  method PackLayers(tables: seq<nat>, rank: seq<nat>, layers: map<nat, seq<nat>>, keys: seq<nat>, arrange: Arrangement, gap: Gap)
    returns (boxes: map<nat, Box>)
    requires gap.x >= 0.0 && gap.y >= 0.0 && |rank| == |tables| && Rearranges(arrange)
    requires Layered(layers, rank, |rank|) && Ascending(keys) && forall k :: k in keys <==> k in layers
    ensures AllApart(boxes) && Sized(tables, boxes) && Spaced(boxes, gap.y) && ByRank(boxes, rank, gap.x)
    ensures forall v: nat :: v in boxes <==> v < |tables|
  {
    hide AllApart, Sized, Spaced, LeftOf, InOrder, EndsAt, ByRank, Rearranges, Layered, Ascending, Distinct;
    boxes := map[];
    var x := 0.0;
    var l := 0;
    NothingPlaced(tables, rank, gap);
    while l < |keys|
      invariant l <= |keys|
      invariant AllApart(boxes) && Sized(tables, boxes) && Spaced(boxes, gap.y) && ByRank(boxes, rank, gap.x) && LeftOf(boxes, x, gap.x)
      invariant forall v: nat :: v in boxes <==> v < |tables| && rank[v] in keys[..l]
    {
      var key := keys[l];
      assert key in keys && keys[..l + 1] == keys[..l] + [key];
      var members := arrange(key, layers[key]);
      LayerMembers(layers, rank, keys, l, arrange);
      ghost var before, left := boxes, x;
      boxes, x := PackLayer(tables, members, boxes, x, gap);
      LaterRanks(before, boxes, members, rank, keys, l, left, gap.x);
      l := l + 1;
    }
    assert keys[..l] == keys;
    AllHaveRanks(layers, rank);
  }

  // The members of a layer, in whatever order.
  lemma LayerMembers(layers: map<nat, seq<nat>>, rank: seq<nat>, keys: seq<nat>, l: nat, arrange: Arrangement)
    requires Layered(layers, rank, |rank|) && Rearranges(arrange) && Ascending(keys) && l < |keys| && keys[l] in layers
    ensures var members := arrange(keys[l], layers[keys[l]]);
            Distinct(members) && forall v: nat :: v in members <==> v < |rank| && rank[v] == keys[l]
    ensures keys[l] !in keys[..l]
  {
    hide Distinct;
    SameMembers(layers[keys[l]], arrange(keys[l], layers[keys[l]]));
  }

  lemma AllHaveRanks(layers: map<nat, seq<nat>>, rank: seq<nat>)
    requires Layered(layers, rank, |rank|)
    ensures forall v: nat :: v < |rank| ==> rank[v] in layers
  {
  }

  lemma NothingPlaced(tables: seq<nat>, rank: seq<nat>, gap: Gap)
    ensures AllApart(map[]) && Sized(tables, map[]) && Spaced(map[], gap.y) && ByRank(map[], rank, gap.x) && LeftOf(map[], 0.0, gap.x)
  {
  }

  lemma EarlierKey(keys: seq<nat>, l: nat, key: nat)
    requires Ascending(keys) && l < |keys| && key in keys[..l]
    ensures key < keys[l]
  {
    var i :| 0 <= i < l && keys[..l][i] == key;
    assert keys[i] < keys[l];
  }

  lemma LaterRanks(before: map<nat, Box>, boxes: map<nat, Box>, members: seq<nat>, rank: seq<nat>, keys: seq<nat>, l: nat,
                   left: real, gap: real)
    requires ByRank(before, rank, gap) && l < |keys| && Ascending(keys) && LeftOf(before, left, gap)
    requires forall v :: v in members ==> v < |rank| && rank[v] == keys[l]
    requires forall v :: v in before ==> v < |rank| && rank[v] in keys[..l]
    requires forall v :: v in boxes <==> v in before || v in members
    requires forall v :: v in before ==> boxes[v] == before[v]
    requires forall v :: v in members ==> left <= boxes[v].x
    ensures ByRank(boxes, rank, gap)
  {
    forall v | v in before ensures rank[v] < keys[l] {
      EarlierKey(keys, l, rank[v]);
    }
    forall u, v | u in boxes && v in boxes && rank[u] < rank[v] ensures boxes[u].x + boxes[u].width + gap <= boxes[v].x {
    }
  }

  /* ---------- The layout ---------- */

  /**
   Every table is placed once with the size it needs, and no two boxes overlap, whatever the
   relationships. A table lies wholly to the right of a table it references, unless that relationship lies
   on a cycle: unless some path leads from the one that references back to the other.
   */
  method AutoLayout(tables: seq<nat>, relationships: seq<Relationship>, arrange: Arrangement, gap: Gap)
    returns (boxes: map<nat, Box>)
    requires gap.x >= 0.0 && gap.y >= 0.0 && Rearranges(arrange)
    ensures forall v: nat :: v in boxes <==> v < |tables|
    ensures AllApart(boxes) && Sized(tables, boxes) && Spaced(boxes, gap.y)
    ensures forall u: nat, v: nat :: u != v && u < |tables| && v < |tables| && Relationship(u, v, false) in relationships ==>
              Leads(GraphOf(|tables|, relationships), v, u) || boxes[u].x + boxes[u].width + gap.x <= boxes[v].x
  {
    hide Leads, ChildrenFirst, Complete, Places, LongestPaths, AllApart, Sized, Spaced, Layered, Rearranges;
    var g := ChildLists(|tables|, relationships);
    var order := FinishOrder(g);
    var place := PlacesOf(g, order);
    var rank := Ranks(g, Reversed(order), place);
    RankCount(g, place, rank);
    var layers := LayersOf(rank);
    var keys := SortedKeys(layers);
    boxes := PackLayers(tables, rank, layers, keys, arrange, gap);
    AllForward(g, order, place);
    forall u: nat, v: nat | u != v && u < |tables| && v < |tables| && Relationship(u, v, false) in relationships
      ensures Leads(g, v, u) || boxes[u].x + boxes[u].width + gap.x <= boxes[v].x
    {
      EdgesAre(|tables|, relationships, u, v);
      if !Leads(g, v, u) {
        HigherRank(g, place, rank, u, v);
      }
    }
  }

  lemma RankCount(g: Graph, place: seq<nat>, rank: seq<nat>)
    requires LongestPaths(g, place, rank)
    ensures |rank| == |g|
  {
  }

  lemma HigherRank(g: Graph, place: seq<nat>, rank: seq<nat>, u: nat, v: nat)
    requires LongestPaths(g, place, rank) && Forward(g, place, u, v)
    ensures v < |rank| && rank[u] < rank[v]
  {
  }
}
