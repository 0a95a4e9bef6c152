/** Hopscotch tables (`hash_table.h`) as sequences of cells. */
module Hopscotch {
  import opened Basics
  import opened Arithmetic

  datatype Value = Value(key: nat, data: nat)

  /** `secondMaps` is the set of distances at which values of this base are displaced. */
  datatype Cell = Cell(hops: set<nat>, value: Option<Value>)

  const REACH := 32
  const WORD := 0x1_0000_0000

  /** `hash % size`. */
  function Base(hash: nat -> nat, n: nat, key: nat): nat
    requires n > 0
  {
    hash(key) % n
  }

  /** How far cell `j` lies after cell `b`. */
  function Distance(n: nat, b: nat, j: nat): nat
    requires b < n && j < n
  {
    if b <= j then j - b else j + n - b
  }

  /** The cell `d` places after cell `b`: `(b + d) % n`. */
  function Forward(n: nat, b: nat, d: nat): (f: nat)
    requires b < n
    ensures f < n
  {
    if b + d < n then b + d else if b + d < 2 * n then b + d - n else (b + d) % n
  }

  lemma ForwardDistance(n: nat, b: nat, j: nat)
    requires b < n && j < n
    ensures Distance(n, b, j) < n && Forward(n, b, Distance(n, b, j)) == j
  {
  }

  lemma DistanceForward(n: nat, b: nat, d: nat)
    requires b < n && d < n
    ensures Forward(n, b, d) < n && Distance(n, b, Forward(n, b, d)) == d
  {
  }

  /** `__builtin_ffs` from distance `d` on; there is no hop when it is beyond reach. */
  function Lowest(hops: set<nat>, d: nat): (f: nat)
    requires d <= REACH + 1
    ensures d <= f <= REACH + 1 && (f <= REACH ==> f in hops) && forall x :: d <= x < f ==> x !in hops
    decreases REACH + 1 - d
  {
    if d > REACH || d in hops then d else Lowest(hops, d + 1)
  }

  /** A value is in its base cell or where its base cell's hops say. */
  ghost predicate PlacedAt(hash: nat -> nat, cells: seq<Cell>, j: nat)
    requires j < |cells|
  {
    cells[j].value.Some? ==>
      var b := Base(hash, |cells|, cells[j].value.value.key);
      b < |cells| && (b == j || Distance(|cells|, b, j) in cells[b].hops)
  }

  /** Every hop leads to a value of this base. */
  ghost predicate HopOk(hash: nat -> nat, cells: seq<Cell>, b: nat, d: nat)
    requires b < |cells|
  {
    d in cells[b].hops ==>
      && 1 <= d <= REACH && d < |cells| && Forward(|cells|, b, d) < |cells|
      && cells[Forward(|cells|, b, d)].value.Some?
      && Base(hash, |cells|, cells[Forward(|cells|, b, d)].value.value.key) == b
  }

  /** What every step of the code keeps, whatever happens to single values. */
  ghost predicate Linked(hash: nat -> nat, cells: seq<Cell>) {
    |cells| > 0 && forall b, d {:trigger HopOk(hash, cells, b, d)} :: 0 <= b < |cells| ==> HopOk(hash, cells, b, d)
  }

  /** Every value is where its base cell says, though that may be empty. */
  ghost predicate AllPlaced(hash: nat -> nat, cells: seq<Cell>) {
    Linked(hash, cells) && forall j {:trigger PlacedAt(hash, cells, j)} :: 0 <= j < |cells| ==> PlacedAt(hash, cells, j)
  }

  ghost predicate WellFormed(hash: nat -> nat, cells: seq<Cell>) {
    AllPlaced(hash, cells) && forall b {:trigger EmptyOk(cells, b)} :: 0 <= b < |cells| ==> EmptyOk(cells, b)
  }

  /** An empty cell has no hops. */
  ghost predicate EmptyOk(cells: seq<Cell>, b: nat)
    requires b < |cells|
  {
    cells[b].value.None? ==> cells[b].hops == {}
  }

  /** How many cells hold `v`. */
  ghost function Count(cells: seq<Cell>, v: Value): nat {
    if cells == [] then 0 else Count(cells[..|cells| - 1], v) + One(cells[|cells| - 1], v)
  }

  ghost function One(c: Cell, v: Value): nat {
    if c.value == Some(v) then 1 else 0
  }

  lemma {:induction false} CountUpdate(cells: seq<Cell>, j: nat, c: Cell, v: Value)
    requires j < |cells|
    ensures Count(cells[j := c], v) + One(cells[j], v) == Count(cells, v) + One(c, v)
    decreases |cells|
  {
    var n := |cells| - 1;
    if j == n {
      assert cells[j := c][..n] == cells[..n];
    } else {
      assert cells[j := c][..n] == cells[..n][j := c] && cells[j := c][n] == cells[n] && cells[..n][j] == cells[j];
      CountUpdate(cells[..n], j, c, v);
    }
  }

  lemma {:induction false} CountHas(cells: seq<Cell>, v: Value)
    ensures Count(cells, v) > 0 <==> exists j :: 0 <= j < |cells| && cells[j].value == Some(v)
    decreases |cells|
  {
    if cells != [] {
      var n := |cells| - 1;
      CountHas(cells[..n], v);
      if exists j :: 0 <= j < |cells| && cells[j].value == Some(v) {
        var j :| 0 <= j < |cells| && cells[j].value == Some(v);
        assert j < n ==> cells[..n][j].value == Some(v);
      }
    }
  }

  /** How many cells are occupied. */
  ghost function Occupied(cells: seq<Cell>): nat {
    if cells == [] then 0 else Occupied(cells[..|cells| - 1]) + if cells[|cells| - 1].value.Some? then 1 else 0
  }

  lemma {:induction false} OccupiedUpdate(cells: seq<Cell>, j: nat, c: Cell)
    requires j < |cells|
    ensures Occupied(cells[j := c]) + (if cells[j].value.Some? then 1 else 0) == Occupied(cells) + if c.value.Some? then 1 else 0
    decreases |cells|
  {
    var n := |cells| - 1;
    if j == n {
      assert cells[j := c][..n] == cells[..n];
    } else {
      assert cells[j := c][..n] == cells[..n][j := c] && cells[j := c][n] == cells[n] && cells[..n][j] == cells[j];
      OccupiedUpdate(cells[..n], j, c);
    }
  }

  /** `cells'` holds the values of `cells`, and `v` once more. */
  ghost predicate OneMore(cells: seq<Cell>, cells': seq<Cell>, v: Value) {
    forall w {:trigger Count(cells', w)} :: Count(cells', w) == Count(cells, w) + if w == v then 1 else 0
  }

  ghost predicate SameValues(cells: seq<Cell>, cells': seq<Cell>) {
    forall w {:trigger Count(cells', w)} :: Count(cells', w) == Count(cells, w)
  }

  /** The cells hold the entries of the map `m`, each once. */
  ghost predicate Represents(cells: seq<Cell>, m: map<nat, Value>) {
    && (forall k :: k in m ==> m[k].key == k)
    && forall v {:trigger Count(cells, v)} :: Count(cells, v) == if v.key in m && m[v.key] == v then 1 else 0
  }

  /** Adding a value under a new key adds an entry to the map. */
  lemma MapInsert(cells: seq<Cell>, cells': seq<Cell>, m: map<nat, Value>, v: Value)
    requires Represents(cells, m) && OneMore(cells, cells', v) && v.key !in m
    ensures Represents(cells', m[v.key := v])
  {
    forall w ensures Count(cells', w) == if w.key in m[v.key := v] && m[v.key := v][w.key] == w then 1 else 0 {
      assert Count(cells, w) == if w.key in m && m[w.key] == w then 1 else 0;
    }
  }

  /** Taking a value out takes its entry out of the map. */
  lemma MapRemove(cells: seq<Cell>, cells': seq<Cell>, m: map<nat, Value>, v: Value)
    requires Represents(cells, m) && OneMore(cells', cells, v)
    ensures v.key in m && m[v.key] == v && Represents(cells', m - {v.key})
  {
    assert Count(cells, v) >= 1;
    forall w ensures Count(cells', w) == if w.key in m - {v.key} && (m - {v.key})[w.key] == w then 1 else 0 {
      assert Count(cells, w) == if w.key in m && m[w.key] == w then 1 else 0;
    }
  }

  /** What is stored under a key is its entry, and nothing is where there is none. */
  lemma MapGet(cells: seq<Cell>, m: map<nat, Value>, key: nat, v: Option<Value>)
    requires Represents(cells, m) && (v.Some? ==> v.value.key == key && Count(cells, v.value) > 0)
    requires v.None? ==> forall w: Value {:trigger Count(cells, w)} :: w.key == key ==> Count(cells, w) == 0
    ensures v == if key in m then Some(m[key]) else None
  {
    if key in m { assert Count(cells, m[key]) == 1; }
  }

  lemma NoKey(cells: seq<Cell>, m: map<nat, Value>, key: nat)
    requires Represents(cells, m) && forall j :: !Found(cells, key, j)
    ensures key !in m && m - {key} == m
  {
    if key in m {
      CountHas(cells, m[key]);
      var j :| 0 <= j < |cells| && cells[j].value == Some(m[key]);
      assert Found(cells, key, j);
    }
  }

  lemma MapSame(cells: seq<Cell>, cells': seq<Cell>, m: map<nat, Value>)
    requires Represents(cells, m) && SameValues(cells, cells')
    ensures Represents(cells', m)
  {
    forall w ensures Count(cells', w) == if w.key in m && m[w.key] == w then 1 else 0 { assert Count(cells', w) == Count(cells, w); }
  }

  /** The first cell tried that has the key, in the order of `_table_get_cell`. */
  ghost predicate Found(cells: seq<Cell>, key: nat, j: nat) {
    j < |cells| && cells[j].value.Some? && cells[j].value.value.key == key
  }

  /** A key that is neither in its base cell nor at one of its hops is nowhere. */
  lemma NowhereElse(hash: nat -> nat, cells: seq<Cell>, key: nat, j: nat)
    requires WellFormed(hash, cells) && Found(cells, key, j)
    ensures var b := Base(hash, |cells|, key); b == j || (Distance(|cells|, b, j) in cells[b].hops && Forward(|cells|, b, Distance(|cells|, b, j)) == j)
  {
    assert PlacedAt(hash, cells, j);
    ForwardDistance(|cells|, Base(hash, |cells|, key), j);
  }

  /** The table once `v` has gone to the empty cell `i` places after its base cell `b`: the base cell
      itself loses its hops, any other cell keeps them. */
  function StoredAt(cells: seq<Cell>, b: nat, i: nat, v: Value): seq<Cell>
    requires b < |cells|
  {
    if i == 0 then cells[b := Cell({}, Some(v))]
    else
      var f := Forward(|cells|, b, i);
      cells[b := Cell(cells[b].hops + {i}, cells[b].value)][f := Cell(cells[f].hops, Some(v))]
  }

  lemma StoreCounts(cells: seq<Cell>, b: nat, i: nat, v: Value)
    requires b < |cells| && i < |cells| && cells[Forward(|cells|, b, i)].value.None?
    ensures OneMore(cells, StoredAt(cells, b, i, v), v) && Occupied(StoredAt(cells, b, i, v)) == Occupied(cells) + 1
  {
    var f, cells' := Forward(|cells|, b, i), StoredAt(cells, b, i, v);
    var mid := if i == 0 then cells else cells[b := Cell(cells[b].hops + {i}, cells[b].value)];
    DistanceForward(|cells|, b, i);
    assert cells' == mid[f := cells'[f]];
    forall w ensures Count(cells', w) == Count(cells, w) + if w == v then 1 else 0 {
      CountUpdate(cells, b, mid[b], w);
      CountUpdate(mid, f, cells'[f], w);
    }
    OccupiedUpdate(cells, b, mid[b]);
    OccupiedUpdate(mid, f, cells'[f]);
  }

  lemma StoreHop(hash: nat -> nat, cells: seq<Cell>, v: Value, i: nat, c: nat, d: nat)
    requires |cells| > 0 && i <= REACH && i < |cells| && cells[Forward(|cells|, Base(hash, |cells|, v.key), i)].value.None?
    requires c < |cells| && HopOk(hash, cells, c, d)
    ensures HopOk(hash, StoredAt(cells, Base(hash, |cells|, v.key), i, v), c, d)
  {
    DistanceForward(|cells|, Base(hash, |cells|, v.key), i);
  }

  /** Nothing that is stored goes, and hops lead where they should. */
  lemma StoreLinked(hash: nat -> nat, cells: seq<Cell>, v: Value, i: nat)
    requires Linked(hash, cells) && i <= REACH && i < |cells| && cells[Forward(|cells|, Base(hash, |cells|, v.key), i)].value.None?
    ensures var cells' := StoredAt(cells, Base(hash, |cells|, v.key), i, v);
            Linked(hash, cells') && OneMore(cells, cells', v) && Occupied(cells') == Occupied(cells) + 1
  {
    StoreCounts(cells, Base(hash, |cells|, v.key), i, v);
    forall c, d: nat | 0 <= c < |cells| ensures HopOk(hash, StoredAt(cells, Base(hash, |cells|, v.key), i, v), c, d) { StoreHop(hash, cells, v, i, c, d); }
  }

  /** No empty cell but perhaps `e` has hops. */
  ghost predicate CleanBut(cells: seq<Cell>, e: nat) {
    forall b {:trigger EmptyOk(cells, b)} :: 0 <= b < |cells| && b != e ==> EmptyOk(cells, b)
  }

  /** A value that goes into an empty cell leaves a well-formed table exactly when no other empty
      cell has hops, and the cell, if it is the value's base, has none either. */
  lemma StoreExact(hash: nat -> nat, cells: seq<Cell>, v: Value, i: nat)
    requires AllPlaced(hash, cells) && i <= REACH && i < |cells| && cells[Forward(|cells|, Base(hash, |cells|, v.key), i)].value.None?
    requires i > 0 ==> cells[Base(hash, |cells|, v.key)].value.Some?
    ensures var b := Base(hash, |cells|, v.key);
            WellFormed(hash, StoredAt(cells, b, i, v)) <==> CleanBut(cells, Forward(|cells|, b, i)) && (i > 0 || cells[b].hops == {})
  {
    var n, b := |cells|, Base(hash, |cells|, v.key);
    var f := Forward(n, b, i);
    var cells' := StoredAt(cells, b, i, v);
    DistanceForward(n, b, i);
    StoreLinked(hash, cells, v, i);
    if i > 0 || cells[b].hops == {} {
      forall j | 0 <= j < n ensures PlacedAt(hash, cells', j) { assert PlacedAt(hash, cells, j); }
      forall j | 0 <= j < n && j != f ensures EmptyOk(cells', j) <==> EmptyOk(cells, j) { }
      assert EmptyOk(cells', f);
      assert WellFormed(hash, cells') ==> forall j :: 0 <= j < n && j != f ==> EmptyOk(cells', j) && EmptyOk(cells, j);
    } else {
      var d :| d in cells[b].hops;
      assert HopOk(hash, cells, b, d);
      DistanceForward(n, b, d);
      assert !PlacedAt(hash, cells', Forward(n, b, d));
    }
  }

  /** Well formed but for cell `e`, whose value has gone and to which no hop leads. */
  ghost predicate HoleAt(hash: nat -> nat, cells: seq<Cell>, e: nat) {
    && e < |cells|
    && (forall j {:trigger PlacedAt(hash, cells, j)} :: 0 <= j < |cells| && j != e ==> PlacedAt(hash, cells, j))
    && (forall b, d {:trigger HopOk(hash, cells, b, d)} :: 0 <= b < |cells| ==> HopOk(hash, cells, b, d) && (d in cells[b].hops ==> Forward(|cells|, b, d) != e))
    && (forall b {:trigger EmptyOk(cells, b)} :: 0 <= b < |cells| && b != e ==> EmptyOk(cells, b))
  }

  function Cleared(cells: seq<Cell>, e: nat): seq<Cell>
    requires e < |cells|
  {
    cells[e := Cell(cells[e].hops, None)]
  }

  /** A hole without hops is an empty cell. */
  lemma HoleFilled(hash: nat -> nat, cells: seq<Cell>, e: nat)
    requires HoleAt(hash, cells, e) && cells[e].hops == {}
    ensures WellFormed(hash, Cleared(cells, e))
  {
    var cells' := Cleared(cells, e);
    forall j | 0 <= j < |cells'| ensures PlacedAt(hash, cells', j) && EmptyOk(cells', j) {
      if j != e { assert PlacedAt(hash, cells, j) && EmptyOk(cells, j); }
    }
    forall b, d | 0 <= b < |cells'| ensures HopOk(hash, cells', b, d) { assert HopOk(hash, cells, b, d); }
  }

  /** The table once the value at distance `d` has been pulled into the hole. */
  function Pulled(cells: seq<Cell>, e: nat, d: nat): seq<Cell>
    requires e < |cells| && Forward(|cells|, e, d) < |cells|
  {
    cells[e := Cell(cells[e].hops - {d}, cells[Forward(|cells|, e, d)].value)]
  }

  lemma PullKeepsValues(cells: seq<Cell>, e: nat, d: nat)
    requires e < |cells| && Forward(|cells|, e, d) < |cells| && Forward(|cells|, e, d) != e
    ensures SameValues(Cleared(cells, e), Cleared(Pulled(cells, e, d), Forward(|cells|, e, d)))
  {
    var h, cells' := Forward(|cells|, e, d), Pulled(cells, e, d);
    forall w ensures Count(Cleared(cells', h), w) == Count(Cleared(cells, e), w) {
      CountUpdate(cells', h, Cell(cells'[h].hops, None), w);
      CountUpdate(cells, e, Cell(cells[e].hops, None), w);
      CountUpdate(cells, e, cells'[e], w);
    }
  }

  /** Pulling a value in moves the hole to where it came from. */
  lemma PullMovesHole(hash: nat -> nat, cells: seq<Cell>, e: nat, d: nat)
    requires HoleAt(hash, cells, e) && d in cells[e].hops
    ensures var h := Forward(|cells|, e, d);
            && h < |cells| && h != e && HoleAt(hash, Pulled(cells, e, d), h)
            && SameValues(Cleared(cells, e), Cleared(Pulled(cells, e, d), h))
  {
    var n := |cells|;
    var h := Forward(n, e, d);
    assert HopOk(hash, cells, e, d);
    DistanceForward(n, e, d);
    var cells' := Pulled(cells, e, d);
    forall j | 0 <= j < n && j != h ensures PlacedAt(hash, cells', j) && EmptyOk(cells', j) {
      if j != e {
        assert PlacedAt(hash, cells, j) && EmptyOk(cells, j);
        if cells[j].value.Some? && Base(hash, n, cells[j].value.value.key) == e { ForwardDistance(n, e, j); }
      }
    }
    forall b, x | 0 <= b < n ensures HopOk(hash, cells', b, x) && (x in cells'[b].hops ==> Forward(n, b, x) != h) {
      assert HopOk(hash, cells, b, x);
      if x in cells'[b].hops && Forward(n, b, x) == h { DistanceForward(n, b, x); }
    }
    PullKeepsValues(cells, e, d);
  }

  /** The table once the base cell `b` has forgotten the value at cell `j`. */
  function Forgotten(cells: seq<Cell>, b: nat, j: nat): seq<Cell>
    requires b < |cells| && j < |cells|
  {
    if b == j then cells else cells[b := Cell(cells[b].hops - {Distance(|cells|, b, j)}, cells[b].value)]
  }

  /** Then cell `j` is a hole. */
  lemma ForgetMakesHole(hash: nat -> nat, cells: seq<Cell>, j: nat)
    requires WellFormed(hash, cells) && j < |cells| && cells[j].value.Some?
    ensures var b := Base(hash, |cells|, cells[j].value.value.key); var cells' := Forgotten(cells, b, j);
            HoleAt(hash, cells', j) && OneMore(Cleared(cells', j), cells, cells[j].value.value)
  {
    var n, v := |cells|, cells[j].value.value;
    var b := Base(hash, n, v.key);
    var cells' := Forgotten(cells, b, j);
    assert PlacedAt(hash, cells, j);
    ForwardDistance(n, b, j);
    forall i | 0 <= i < n && i != j ensures PlacedAt(hash, cells', i) && EmptyOk(cells', i) {
      assert PlacedAt(hash, cells, i) && EmptyOk(cells, i) && EmptyOk(cells, b);
      if cells[i].value.Some? && Base(hash, n, cells[i].value.value.key) == b { ForwardDistance(n, b, i); }
    }
    forall c, d | 0 <= c < n ensures HopOk(hash, cells', c, d) && (d in cells'[c].hops ==> Forward(n, c, d) != j) {
      assert HopOk(hash, cells, c, d);
      if d in cells'[c].hops && Forward(n, c, d) == j { DistanceForward(n, c, d); }
    }
    forall w ensures Count(cells, w) == Count(Cleared(cells', j), w) + if w == v then 1 else 0 {
      CountUpdate(cells, b, cells'[b], w);
      CountUpdate(cells', j, Cell(cells'[j].hops, None), w);
    }
  }

  /** How many hops there are in all. */
  ghost function Hops(cells: seq<Cell>): nat {
    if cells == [] then 0 else Hops(cells[..|cells| - 1]) + |cells[|cells| - 1].hops|
  }

  lemma {:induction false} HopsUpdate(cells: seq<Cell>, j: nat, c: Cell)
    requires j < |cells|
    ensures Hops(cells[j := c]) + |cells[j].hops| == Hops(cells) + |c.hops|
    decreases |cells|
  {
    var n := |cells| - 1;
    if j == n {
      assert cells[j := c][..n] == cells[..n];
    } else {
      assert cells[j := c][..n] == cells[..n][j := c] && cells[j := c][n] == cells[n] && cells[..n][j] == cells[j];
      HopsUpdate(cells[..n], j, c);
    }
  }

  lemma ForwardMod(n: nat, b: nat, i: nat)
    requires b < n
    ensures Forward(n, b, i) == (b + i) % n
  {
    if b + i < n {
      Euclid(b + i, n, 0, b + i);
    } else if b + i < 2 * n {
      Euclid(b + i, n, 1, b + i - n);
    }
  }

  /** A size that divides the word and is smaller is at most half of it. */
  lemma HalfWord(n: nat)
    requires 0 < n < WORD && WORD % n == 0
    ensures n <= WORD / 2
  {
    var m := Quotient(WORD, n);
    if n > WORD / 2 { Euclid(WORD, n, 1, WORD - n); }
  }

  lemma PowerWord()
    ensures Power(32) == WORD
  {
    assert Power(8) == 0x100;
    assert Power(16) == 0x1_0000;
    assert Power(24) == 0x100_0000;
  }

  /** Twice such a size divides the word too. */
  lemma DoubleDivides(n: nat)
    requires 0 < n < WORD && WORD % n == 0
    ensures WORD % (2 * n) == 0
  {
    var m: nat := Quotient(WORD, n);
    PowerWord();
    if m <= 1 { Distribute(n, m, 1 - m); Sign(n, 1 - m); }
    Commute(m, n);
    EvenFactor(m, n, 32);
    var g := m / 2;
    Distribute(n, g, g);
    Commute(2 * n, g);
    Distribute(g, n, n);
    Commute(g, n);
    Euclid(WORD, 2 * n, g, 0);
  }

  /** `(x % WORD) % n` is `x % n` when `n` divides the word. */
  lemma ModWord(x: nat, n: nat, m: nat)
    requires n > 0 && n * m == WORD
    ensures (x % WORD) % n == x % n
  {
    var q, r := x / WORD, x % WORD;
    assert n * (m * q) == (n * m) * q;
    AddMod(n * (m * q), r, n);
    Euclid(n * (m * q), n, m * q, 0);
  }

  /** The index of `hash + i`, computed in 32 bits, is the cell `i` places after the base. */
  lemma WrapIndex(h: nat, i: nat, n: nat, m: nat)
    requires n > 0 && n * m == WORD
    ensures ((h + i) % WORD) % n == Forward(n, h % n, i)
  {
    ModWord(h + i, n, m);
    AddMod(h, i, n);
    ForwardMod(n, h % n, i);
  }

  /** The neighbours of a base cell are the cells after it for every hash exactly when the
      size divides the word. */
  lemma WrapExact(n: nat)
    requires n > 0
    ensures (forall h: nat, i: nat {:trigger Forward(n, h % n, i)} :: h < WORD && i <= REACH ==> ((h + i) % WORD) % n == Forward(n, h % n, i)) <==>
            WORD % n == 0
  {
    if WORD % n == 0 {
      var m := Quotient(WORD, n);
      forall h: nat, i: nat | h < WORD && i <= REACH ensures ((h + i) % WORD) % n == Forward(n, h % n, i) { WrapIndex(h, i, n, m); }
    } else {
      var h := WORD - 1;
      AddMod(h, 1, n);
      ForwardMod(n, h % n, 1);
      Euclid(0, n, 0, 0);
      assert ((h + 1) % WORD) % n != Forward(n, h % n, 1);
    }
  }
}
