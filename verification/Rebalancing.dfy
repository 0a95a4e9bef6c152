/** `_table_rebalance` and `_table_move_gap`, which bring an empty cell closer to a full base cell. */
module Rebalancing {
  import opened Arithmetic
  import opened Basics
  import opened Hopscotch

  /** The 32-bit hash `k` places after `to`. */
  function Word(to: nat, k: nat): nat {
    (to + k) % WORD
  }

  /** The cell of that hash, when the size divides the word. */
  function At(n: nat, to: nat, k: nat): (j: nat)
    requires n > 0
    ensures j < n
  {
    Forward(n, to % n, k)
  }

  /** The first move: the value of base cell `b` goes into the gap `e`, at distance `d`. */
  function PrimaryMoved(cells: seq<Cell>, b: nat, d: nat, e: nat): seq<Cell>
    requires b < |cells| && e < |cells|
  {
    cells[e := Cell(cells[e].hops, cells[b].value)][b := Cell(cells[b].hops + {d}, None)]
  }

  /** The second move: the value that `b` has displaced to `h` goes into the gap. */
  function HopMoved(cells: seq<Cell>, b: nat, hop: nat, h: nat, d: nat, e: nat): seq<Cell>
    requires b < |cells| && h < |cells| && e < |cells|
  {
    cells[e := Cell(cells[e].hops, cells[h].value)][b := Cell((cells[b].hops + {d}) - {hop}, cells[b].value)][h := Cell(cells[h].hops, None)]
  }

  /** The value in the cell `p` places on has exactly this hash. */
  predicate Primary(hash: nat -> nat, cells: seq<Cell>, to: nat, p: nat)
    requires |cells| > 0
  {
    var c := cells[At(|cells|, to, p)];
    c.value.Some? && hash(c.value.value.key) % WORD == Word(to, p)
  }

  /** The cell has displaced a value to a hash before the one of the gap. */
  predicate Near(cells: seq<Cell>, to: nat, p: nat, k: nat)
    requires |cells| > 0
  {
    var hop := Lowest(cells[At(|cells|, to, p)].hops, 1);
    hop <= REACH && Word(to, p + hop) < Word(to, k)
  }

  predicate Movable(hash: nat -> nat, cells: seq<Cell>, to: nat, p: nat, k: nat)
    requires |cells| > 0
  {
    Primary(hash, cells, to, p) || Near(cells, to, p, k)
  }

  /** The first place from `p` on that can give a value to the gap at `k`, or `k`. */
  function First(hash: nat -> nat, cells: seq<Cell>, to: nat, p: nat, k: nat): (q: nat)
    requires |cells| > 0 && p <= k
    ensures p <= q <= k && (q < k ==> Movable(hash, cells, to, q, k)) && forall x :: p <= x < q ==> !Movable(hash, cells, to, x, k)
    decreases k - p
  {
    if p == k || Movable(hash, cells, to, p, k) then p else First(hash, cells, to, p + 1, k)
  }

  /** The table and the gap once the place `p` has given a value to the gap at `k`. */
  function Moved(hash: nat -> nat, cells: seq<Cell>, to: nat, p: nat, k: nat): (r: seq<Cell>)
    requires |cells| > 0 && p <= k
    ensures |r| == |cells|
  {
    var n := |cells|;
    var hop := Lowest(cells[At(n, to, p)].hops, 1);
    if Primary(hash, cells, to, p) then PrimaryMoved(cells, At(n, to, p), k - p, At(n, to, k))
    else HopMoved(cells, At(n, to, p), hop, At(n, to, p + hop), k - p, At(n, to, k))
  }

  function GapAfter(hash: nat -> nat, cells: seq<Cell>, to: nat, p: nat): (g: nat)
    requires |cells| > 0
    ensures p <= g
  {
    if Primary(hash, cells, to, p) then p else p + Lowest(cells[At(|cells|, to, p)].hops, 1)
  }

  lemma WordBack(to: nat, p: nat, k: nat)
    requires p <= k <= p + REACH && Word(to, k) >= REACH
    ensures Word(to, p) == Word(to, k) - (k - p)
  {
    var q := Quotient(to + k, WORD);
    Euclid(to + p, WORD, q, Word(to, k) - (k - p));
  }

  /** `_table_move_gap`: whether it succeeds, the table it leaves, and where the gap is then. */
  function Shift(hash: nat -> nat, cells: seq<Cell>, to: nat, k: nat): (r: (bool, seq<Cell>, nat))
    requires |cells| > 0 && k >= REACH
    ensures |r.1| == |cells|
    decreases Word(to, k)
  {
    var p := First(hash, cells, to, k - REACH, k);
    if Word(to, k) < REACH || p == k then (false, cells, k)
    else
      WordBack(to, p, k);
      var cells', g := Moved(hash, cells, to, p, k), GapAfter(hash, cells, to, p);
      if p < REACH then (true, cells', g) else Shift(hash, cells', to, g)
  }

  lemma ForwardAdd(n: nat, x: nat, p: nat, d: nat)
    requires x < n
    ensures Forward(n, Forward(n, x, p), d) == Forward(n, x, p + d)
  {
    ForwardMod(n, x, p);
    ForwardMod(n, Forward(n, x, p), d);
    ForwardMod(n, x, p + d);
    AddMod(x + p, d, n);
  }

  /** A value whose hash is exactly that of its cell is in its base cell. */
  lemma PrimaryBase(hash: nat -> nat, cells: seq<Cell>, to: nat, p: nat)
    requires |cells| > 0 && WORD % |cells| == 0 && Primary(hash, cells, to, p)
    ensures var b := At(|cells|, to, p); Base(hash, |cells|, cells[b].value.value.key) == b
  {
    var n, b := |cells|, At(|cells|, to, p);
    var m := Quotient(WORD, n);
    ModWord(hash(cells[b].value.value.key), n, m);
    WrapIndex(to, p, n, m);
  }

  /** Only the values of the cells `i`, now empty, and `j`, which was, have changed: one went over. */
  ghost predicate Swapped(cells: seq<Cell>, cells': seq<Cell>, i: nat, j: nat) {
    && i < |cells| == |cells'| && j < |cells| && i != j
    && cells[j].value.None? && cells[i].value.Some? && cells'[i].value.None? && cells'[j].value == cells[i].value
    && forall k :: 0 <= k < |cells| && k != i && k != j ==> cells'[k].value == cells[k].value
  }

  lemma SwapCounts(cells: seq<Cell>, cells': seq<Cell>, i: nat, j: nat)
    requires Swapped(cells, cells', i, j)
    ensures SameValues(cells, cells') && Occupied(cells') == Occupied(cells)
  {
    var mid := cells[j := cells'[j]];
    forall v ensures Count(cells', v) == Count(cells, v) {
      CountUpdate(cells, j, cells'[j], v);
      CountUpdate(mid, i, cells'[i], v);
      SameCounts(mid[i := cells'[i]], cells', v);
    }
    OccupiedUpdate(cells, j, cells'[j]);
    OccupiedUpdate(mid, i, cells'[i]);
    SameOccupied(mid[i := cells'[i]], cells');
  }

  lemma {:induction false} SameCounts(a: seq<Cell>, b: seq<Cell>, v: Value)
    requires |a| == |b| && forall k :: 0 <= k < |a| ==> a[k].value == b[k].value
    ensures Count(a, v) == Count(b, v)
    decreases |a|
  {
    if a != [] { SameCounts(a[..|a| - 1], b[..|b| - 1], v); }
  }

  lemma {:induction false} SameOccupied(a: seq<Cell>, b: seq<Cell>)
    requires |a| == |b| && forall k :: 0 <= k < |a| ==> a[k].value == b[k].value
    ensures Occupied(a) == Occupied(b)
    decreases |a|
  {
    if a != [] { SameOccupied(a[..|a| - 1], b[..|b| - 1]); }
  }

  /** Cell `e`, at distance `d` after `b`, is empty and within reach. */
  ghost predicate Gap(hash: nat -> nat, cells: seq<Cell>, b: nat, d: nat, e: nat) {
    Linked(hash, cells) && b < |cells| && 1 <= d <= REACH && d < |cells| && e == Forward(|cells|, b, d) && cells[e].value.None?
  }

  /** The first move hands the gap on. */
  lemma PrimaryGap(hash: nat -> nat, cells: seq<Cell>, b: nat, d: nat, e: nat)
    requires Gap(hash, cells, b, d, e) && cells[b].value.Some? && Base(hash, |cells|, cells[b].value.value.key) == b
    ensures var cells' := PrimaryMoved(cells, b, d, e);
            Linked(hash, cells') && Swapped(cells, cells', b, e) && (AllPlaced(hash, cells) ==> AllPlaced(hash, cells')) && (CleanBut(cells, e) ==> CleanBut(cells', b))
  {
    var n, cells' := |cells|, PrimaryMoved(cells, b, d, e);
    DistanceForward(n, b, d);
    forall x, y: nat | 0 <= x < n ensures HopOk(hash, cells', x, y) {
      assert HopOk(hash, cells, x, y);
      if y in cells[x].hops && Forward(n, x, y) == b { DistanceForward(n, x, y); }
    }
    if AllPlaced(hash, cells) {
      forall j | 0 <= j < n ensures PlacedAt(hash, cells', j) { assert PlacedAt(hash, cells, j); }
    }
    if CleanBut(cells, e) {
      forall j | 0 <= j < n && j != b ensures EmptyOk(cells', j) {
        if j != e { assert EmptyOk(cells, j); }
      }
    }
  }

  lemma HopLinked(hash: nat -> nat, cells: seq<Cell>, b: nat, hop: nat, h: nat, d: nat, e: nat)
    requires Gap(hash, cells, b, d, e) && hop in cells[b].hops && h == Forward(|cells|, b, hop)
    ensures var cells' := HopMoved(cells, b, hop, h, d, e); Linked(hash, cells') && Swapped(cells, cells', h, e)
  {
    var n, cells' := |cells|, HopMoved(cells, b, hop, h, d, e);
    assert HopOk(hash, cells, b, hop);
    DistanceForward(n, b, d);
    DistanceForward(n, b, hop);
    forall x, y: nat | 0 <= x < n ensures HopOk(hash, cells', x, y) {
      assert HopOk(hash, cells, x, y);
      if y in cells'[x].hops && y < n { DistanceForward(n, x, y); }
    }
  }

  /** So does the second. */
  lemma HopGap(hash: nat -> nat, cells: seq<Cell>, b: nat, hop: nat, h: nat, d: nat, e: nat)
    requires Gap(hash, cells, b, d, e) && hop in cells[b].hops && h == Forward(|cells|, b, hop)
    ensures var cells' := HopMoved(cells, b, hop, h, d, e);
            Linked(hash, cells') && Swapped(cells, cells', h, e) && (AllPlaced(hash, cells) ==> AllPlaced(hash, cells')) && (CleanBut(cells, e) ==> CleanBut(cells', h))
  {
    var n, cells' := |cells|, HopMoved(cells, b, hop, h, d, e);
    HopLinked(hash, cells, b, hop, h, d, e);
    assert HopOk(hash, cells, b, hop);
    DistanceForward(n, b, d);
    DistanceForward(n, b, hop);
    if AllPlaced(hash, cells) {
      forall j | 0 <= j < n ensures PlacedAt(hash, cells', j) {
        assert PlacedAt(hash, cells, j);
        ForwardDistance(n, b, j);
      }
    }
    if CleanBut(cells, e) {
      forall j | 0 <= j < n && j != h ensures EmptyOk(cells', j) {
        if j != e { assert EmptyOk(cells, j); }
      }
    }
  }

  /** A table on which `_table_move_gap` is called: the cell `k` places on is empty. */
  ghost predicate Open(hash: nat -> nat, cells: seq<Cell>, to: nat, k: nat) {
    Linked(hash, cells) && REACH < |cells| <= WORD / 2 && WORD % |cells| == 0 && cells[At(|cells|, to, k)].value.None?
  }

  lemma MovedGap(hash: nat -> nat, cells: seq<Cell>, to: nat, p: nat, k: nat)
    requires Open(hash, cells, to, k) && p < k <= p + REACH && Movable(hash, cells, to, p, k)
    ensures var cells', g := Moved(hash, cells, to, p, k), GapAfter(hash, cells, to, p);
            && Open(hash, cells', to, g) && Swapped(cells, cells', At(|cells|, to, g), At(|cells|, to, k))
            && (AllPlaced(hash, cells) ==> AllPlaced(hash, cells')) && (CleanBut(cells, At(|cells|, to, k)) ==> CleanBut(cells', At(|cells|, to, g)))
  {
    hide Linked, AllPlaced, CleanBut, Swapped, PrimaryMoved, HopMoved, Word;
    var n := |cells|;
    var b, e := At(n, to, p), At(n, to, k);
    ForwardAdd(n, to % n, p, k - p);
    if Primary(hash, cells, to, p) {
      PrimaryBase(hash, cells, to, p);
      PrimaryGap(hash, cells, b, k - p, e);
    } else {
      var hop := Lowest(cells[b].hops, 1);
      ForwardAdd(n, to % n, p, hop);
      HopGap(hash, cells, b, hop, At(n, to, p + hop), k - p, e);
    }
  }

  /** Whatever `_table_move_gap` does, it moves values and keeps hops right. */
  lemma {:induction false} ShiftKeeps(hash: nat -> nat, cells: seq<Cell>, to: nat, k: nat)
    requires Open(hash, cells, to, k) && k >= REACH
    ensures var s := Shift(hash, cells, to, k); Open(hash, s.1, to, s.2) && SameValues(cells, s.1) && Occupied(s.1) == Occupied(cells) && (AllPlaced(hash, cells) ==> AllPlaced(hash, s.1))
    decreases Word(to, k)
  {
    var p := First(hash, cells, to, k - REACH, k);
    if Word(to, k) >= REACH && p < k {
      WordBack(to, p, k);
      MovedGap(hash, cells, to, p, k);
      var cells', g := Moved(hash, cells, to, p, k), GapAfter(hash, cells, to, p);
      SwapCounts(cells, cells', At(|cells|, to, g), At(|cells|, to, k));
      if p >= REACH { ShiftKeeps(hash, cells', to, g); }
    }
  }

  /** Every cell before the one `k` places on is full. */
  ghost predicate FullBelow(cells: seq<Cell>, to: nat, k: nat)
    requires |cells| > 0
  {
    forall p {:trigger At(|cells|, to, p)} :: 0 <= p < k ==> cells[At(|cells|, to, p)].value.Some?
  }

  lemma AtApart(n: nat, to: nat, p: nat, q: nat)
    requires p < q < n
    ensures At(n, to, p) != At(n, to, q)
  {
    DistanceForward(n, to % n, p);
    DistanceForward(n, to % n, q);
  }

  /** One turn of the recursion, for a hash that is not among the last 63: the gap comes closer, or
      to a hash at which the recursion gives up. */
  lemma MovedCloser(hash: nat -> nat, cells: seq<Cell>, to: nat, p: nat, k: nat)
    requires Open(hash, cells, to, k) && p < k <= p + REACH && Movable(hash, cells, to, p, k) && Word(to, k) >= REACH
    requires FullBelow(cells, to, k) && k < |cells| && to + 2 * REACH <= WORD
    ensures var cells', g := Moved(hash, cells, to, p, k), GapAfter(hash, cells, to, p);
            if g < k then FullBelow(cells', to, g) else p >= REACH && Word(to, g) < REACH
    ensures Word(to, GapAfter(hash, cells, to, p)) < Word(to, k)
  {
    var n, cells', g := |cells|, Moved(hash, cells, to, p, k), GapAfter(hash, cells, to, p);
    MovedGap(hash, cells, to, p, k);
    WordBack(to, p, k);
    if g < k {
      forall q {:trigger At(n, to, q)} | 0 <= q < g ensures cells'[At(n, to, q)].value.Some? {
        AtApart(n, to, q, k);
        AtApart(n, to, q, g);
      }
    } else {
      WordOver(to, p, g, k);
    }
  }

  lemma WordOver(to: nat, p: nat, g: nat, k: nat)
    requires p < k <= g <= p + REACH && Word(to, k) >= REACH && Word(to, g) < Word(to, k)
    ensures Word(to, g) < REACH && (to + 2 * REACH <= WORD ==> p >= REACH)
  {
    var q := Quotient(to + k, WORD);
    Euclid(to + p, WORD, q, Word(to, k) - (k - p));
    if Word(to, k) + (g - k) < WORD {
      Euclid(to + g, WORD, q, Word(to, k) + (g - k));
    } else {
      Euclid(to + g, WORD, q + 1, Word(to, k) + (g - k) - WORD);
    }
  }

  /** When `_table_move_gap` succeeds, the gap is closer and nothing else is out of order.  It is the
      base cell only if two values are there that no other rule moves: one with the hash `to` itself
      in the base cell, and one with the hash of the cell 32 places on in that. */
  lemma {:induction false} ShiftCloser(hash: nat -> nat, cells: seq<Cell>, to: nat, k: nat)
    requires Open(hash, cells, to, k) && FullBelow(cells, to, k) && REACH <= k < |cells| && to + 2 * REACH <= WORD
    requires Shift(hash, cells, to, k).0
    ensures var s := Shift(hash, cells, to, k);
            && s.2 < k && FullBelow(s.1, to, s.2)
            && (CleanBut(cells, At(|cells|, to, k)) ==> CleanBut(s.1, At(|cells|, to, s.2)))
            && (s.2 == 0 ==> Primary(hash, cells, to, 0) && (k == REACH || Primary(hash, cells, to, REACH)) && s.1[At(|cells|, to, 0)].hops != {})
    ensures var s := Shift(hash, cells, to, k);
            s.2 > REACH ==> forall q :: 0 <= q <= REACH ==> s.1[At(|cells|, to, q)].value == cells[At(|cells|, to, q)].value
    decreases Word(to, k)
  {
    var n, p := |cells|, First(hash, cells, to, k - REACH, k);
    var cells', g := Moved(hash, cells, to, p, k), GapAfter(hash, cells, to, p);
    MovedCloser(hash, cells, to, p, k);
    MovedGap(hash, cells, to, p, k);
    if p < REACH {
      assert g == 0 ==> k - p in cells'[At(n, to, 0)].hops;
    } else if g < k {
      ShiftCloser(hash, cells', to, g);
      forall q | 0 <= q <= REACH && q < g ensures cells'[At(n, to, q)].value == cells[At(n, to, q)].value {
        AtApart(n, to, q, g);
        AtApart(n, to, q, k);
      }
    }
  }

  /** How far a cell is from giving its place to the gap: all moves go from lower to higher. */
  function Weight(n: nat, to: nat, j: nat): nat
    requires j < n
  {
    var k := Distance(n, to % n, j);
    if to + k < WORD then n + k else k
  }

  /** The weight of the empty cells among the first `j`. */
  ghost function Empties(cells: seq<Cell>, to: nat, j: nat): nat
    requires j <= |cells|
  {
    if j == 0 then 0 else Empties(cells, to, j - 1) + if cells[j - 1].value.None? then Weight(|cells|, to, j - 1) else 0
  }

  lemma {:induction false} SwapEmpties(cells: seq<Cell>, cells': seq<Cell>, to: nat, x: nat, y: nat, j: nat)
    requires Swapped(cells, cells', x, y) && j <= |cells|
    ensures Empties(cells', to, j) + (if y < j then Weight(|cells|, to, y) else 0) == Empties(cells, to, j) + if x < j then Weight(|cells|, to, x) else 0
    decreases j
  {
    if j > 0 { SwapEmpties(cells, cells', to, x, y, j - 1); }
  }

  lemma WordIs(to: nat, k: nat)
    requires to + k < 2 * WORD
    ensures Word(to, k) == if to + k < WORD then to + k else to + k - WORD
  {
  }

  lemma AtWrapped(n: nat, to: nat, g: nat)
    requires 0 < n <= g < 2 * n
    ensures Distance(n, to % n, At(n, to, g)) == g - n
  {
    var b := to % n;
    if b + g >= 2 * n { Euclid(b + g, n, 2, b + g - 2 * n); }
    DistanceForward(n, b, g - n);
  }

  /** Where the gap goes it weighs less, even past the end of the 32-bit hashes. */
  lemma Lighter(n: nat, to: nat, p: nat, g: nat, k: nat)
    requires REACH < n <= WORD / 2 && to < WORD && p < k <= p + REACH && k < n && p <= g <= p + REACH && Word(to, k) >= REACH && (g == p || Word(to, g) < Word(to, k))
    ensures Weight(n, to, At(n, to, g)) < Weight(n, to, At(n, to, k)) && (g < n || Word(to, g) < REACH)
  {
    DistanceForward(n, to % n, k);
    if g < n { DistanceForward(n, to % n, g); } else { AtWrapped(n, to, g); }
    WordIs(to, k);
    WordIs(to, g);
    hide Word, At, Distance, Forward;
  }

  /** When `_table_move_gap` succeeds, the empty cells weigh less, so that attempts come to an end. */
  lemma {:induction false} ShiftLighter(hash: nat -> nat, cells: seq<Cell>, to: nat, k: nat)
    requires Open(hash, cells, to, k) && k >= REACH && to < WORD && (k < |cells| || Word(to, k) < REACH)
    ensures var s := Shift(hash, cells, to, k); s.0 ==> Empties(s.1, to, |cells|) < Empties(cells, to, |cells|)
    decreases Word(to, k)
  {
    hide Linked, AllPlaced, CleanBut, Weight, Empties, Word, At, Moved;
    var n, p := |cells|, First(hash, cells, to, k - REACH, k);
    if Word(to, k) >= REACH && p < k {
      var cells', g := Moved(hash, cells, to, p, k), GapAfter(hash, cells, to, p);
      WordBack(to, p, k);
      Lighter(n, to, p, g, k);
      MovedGap(hash, cells, to, p, k);
      SwapEmpties(cells, cells', to, At(n, to, g), At(n, to, k), n);
      if p >= REACH { ShiftLighter(hash, cells', to, g); }
    }
  }

  /** The first empty cell from the one `k` places on, or none when it is the size. */
  function FirstEmpty(cells: seq<Cell>, to: nat, k: nat): (q: nat)
    requires |cells| > 0 && k <= |cells|
    ensures k <= q <= |cells| && (q < |cells| ==> cells[At(|cells|, to, q)].value.None?)
    ensures forall p {:trigger At(|cells|, to, p)} :: k <= p < q ==> cells[At(|cells|, to, p)].value.Some?
    decreases |cells| - k
  {
    if k == |cells| || cells[At(|cells|, to, k)].value.None? then k else FirstEmpty(cells, to, k + 1)
  }

  /** What `_table_move_gap` works on. */
  ghost predicate Sized(hash: nat -> nat, cells: seq<Cell>) {
    Linked(hash, cells) && |cells| <= WORD / 2 && WORD % |cells| == 0
  }

  /** `_insert` calls `_table_rebalance` again and again, until there is an empty cell within reach or
      it gives up: the table it has then, and where the empty cell is. */
  ghost function Settled(hash: nat -> nat, cells: seq<Cell>, to: nat): (r: Option<(seq<Cell>, nat)>)
    requires Sized(hash, cells) && to < WORD
    ensures r.Some? ==>
              && Sized(hash, r.value.0) && SameValues(cells, r.value.0) && Occupied(r.value.0) == Occupied(cells) && (AllPlaced(hash, cells) ==> AllPlaced(hash, r.value.0))
              && |r.value.0| == |cells| && r.value.1 <= REACH && r.value.1 < |cells| && r.value.1 == FirstEmpty(r.value.0, to, 0)
    decreases Empties(cells, to, |cells|)
  {
    var k := FirstEmpty(cells, to, 0);
    if k == |cells| then None
    else if k <= REACH then Some((cells, k))
    else
      ShiftKeeps(hash, cells, to, k);
      ShiftLighter(hash, cells, to, k);
      var s := Shift(hash, cells, to, k);
      if s.0 then Settled(hash, s.1, to) else None
  }

  lemma {:induction false} SettledCloser(hash: nat -> nat, cells: seq<Cell>, to: nat)
    requires Sized(hash, cells) && to + 2 * REACH <= WORD && Settled(hash, cells, to).Some?
    ensures var s := Settled(hash, cells, to).value;
            && (CleanBut(cells, At(|cells|, to, FirstEmpty(cells, to, 0))) ==> CleanBut(s.0, At(|cells|, to, s.1)))
            && (s.1 == 0 && FirstEmpty(cells, to, 0) > 0 ==>
                  Primary(hash, cells, to, 0) && Primary(hash, cells, to, REACH) && s.0[At(|cells|, to, 0)].hops != {})
    decreases FirstEmpty(cells, to, 0)
  {
    var k := FirstEmpty(cells, to, 0);
    if k > REACH {
      var s := Shift(hash, cells, to, k);
      ShiftKeeps(hash, cells, to, k);
      ShiftLighter(hash, cells, to, k);
      ShiftCloser(hash, cells, to, k);
      FirstEmptyIs(s.1, to, s.2);
      SettledCloser(hash, s.1, to);
    }
  }

  lemma AtBase(hash: nat -> nat, n: nat, key: nat, k: nat)
    requires n > 0 && WORD % n == 0
    ensures At(n, hash(key) % WORD, k) == Forward(n, Base(hash, n, key), k)
  {
    var m := Quotient(WORD, n);
    ModWord(hash(key), n, m);
  }

  /** The table that `_insert` leaves if it does not grow it, and none if it does. */
  ghost function InsertedIn(hash: nat -> nat, cells: seq<Cell>, v: Value): Option<seq<Cell>>
    requires Sized(hash, cells)
  {
    var s := Settled(hash, cells, hash(v.key) % WORD);
    if s.None? then None else Some(StoredAt(s.value.0, Base(hash, |cells|, v.key), s.value.1, v))
  }

  /** The table before the value is stored: no empty cell has hops but the one it goes into, and that
      one neither if it is the value's base. */
  ghost predicate Tidy(hash: nat -> nat, cells: seq<Cell>, v: Value)
    requires Sized(hash, cells)
  {
    var to := hash(v.key) % WORD;
    var s := Settled(hash, cells, to);
    s.Some? && CleanBut(s.value.0, At(|cells|, to, s.value.1)) && (s.value.1 > 0 || s.value.0[At(|cells|, to, 0)].hops == {})
  }

  /** Rebalancing ends with the base cell itself as the gap. */
  ghost predicate BaseEmptied(hash: nat -> nat, cells: seq<Cell>, v: Value)
    requires Sized(hash, cells)
  {
    var to := hash(v.key) % WORD;
    var s := Settled(hash, cells, to);
    FirstEmpty(cells, to, 0) > 0 && s.Some? && s.value.1 == 0
  }

  /** `_table_get_cell` answers cell `j`. */
  ghost predicate Answers(hash: nat -> nat, cells: seq<Cell>, key: nat, j: nat)
    requires |cells| > 0
  {
    var b := Base(hash, |cells|, key);
    b < |cells| && cells[b].value.Some? && Found(cells, key, j) && (j == b || Distance(|cells|, b, j) in cells[b].hops)
  }

  /** An insertion that does not grow the table adds exactly the value, and leaves a well-formed table
      exactly when rebalancing leaves it tidy.  For all but the last 63 hashes that is so exactly when
      it does not empty the base cell of the value, and it empties that only if the base cell holds a
      value with the same 32-bit hash, and the cell 32 places on one with the hash 32 places on.  Then
      no other key of that base is found any more. */
  lemma InsertExact(hash: nat -> nat, cells: seq<Cell>, v: Value)
    requires WellFormed(hash, cells) && Sized(hash, cells) && InsertedIn(hash, cells, v).Some?
    ensures var cells' := InsertedIn(hash, cells, v).value;
            |cells'| == |cells| && Linked(hash, cells') && OneMore(cells, cells', v) && (WellFormed(hash, cells') <==> Tidy(hash, cells, v))
    ensures var to := hash(v.key) % WORD;
            to + 2 * REACH <= WORD ==>
              && (Tidy(hash, cells, v) <==> !BaseEmptied(hash, cells, v))
              && (BaseEmptied(hash, cells, v) ==> Primary(hash, cells, to, 0) && Primary(hash, cells, to, REACH))
    ensures BaseEmptied(hash, cells, v) ==>
              forall key, j :: Base(hash, |cells|, key) == Base(hash, |cells|, v.key) && key != v.key ==> !Answers(hash, InsertedIn(hash, cells, v).value, key, j)
  {
    var n, to, b := |cells|, hash(v.key) % WORD, Base(hash, |cells|, v.key);
    forall i ensures At(n, to, i) == Forward(n, b, i) { AtBase(hash, n, v.key, i); }
    var s := Settled(hash, cells, to).value;
    StoreLinked(hash, s.0, v, s.1);
    StoreExact(hash, s.0, v, s.1);
    var cells' := StoredAt(s.0, b, s.1, v);
    forall w ensures Count(cells', w) == Count(cells, w) + if w == v then 1 else 0 { assert Count(cells', w) == Count(s.0, w) + if w == v then 1 else 0; }
    var k := FirstEmpty(cells, to, 0);
    assert k < n ==> EmptyOk(cells, At(n, to, k));
    if to + 2 * REACH <= WORD { SettledCloser(hash, cells, to); }
  }

  /** All values have different 32-bit hashes, and none of the last 63. */
  ghost predicate Scattered(hash: nat -> nat, cells: seq<Cell>) {
    && (forall u {:trigger Count(cells, u)} :: Count(cells, u) > 0 ==> Count(cells, u) == 1 && hash(u.key) % WORD + 2 * REACH <= WORD)
    && (forall u, w {:trigger Count(cells, u), Count(cells, w)} ::
          Count(cells, u) > 0 && Count(cells, w) > 0 && hash(u.key) % WORD == hash(w.key) % WORD ==> u == w)
  }

  /** So they have together with the hash of `v`. */
  ghost predicate ScatteredWith(hash: nat -> nat, cells: seq<Cell>, v: Value) {
    && Scattered(hash, cells) && hash(v.key) % WORD + 2 * REACH <= WORD
    && (forall u {:trigger Count(cells, u)} :: Count(cells, u) > 0 ==> hash(u.key) % WORD != hash(v.key) % WORD)
  }

  lemma ScatteredSame(hash: nat -> nat, cells: seq<Cell>, cells': seq<Cell>, v: Value)
    requires SameValues(cells, cells')
    ensures Scattered(hash, cells) ==> Scattered(hash, cells')
    ensures ScatteredWith(hash, cells, v) ==> ScatteredWith(hash, cells', v)
  {
    assert forall u :: Count(cells', u) == Count(cells, u);
  }

  /** `_insert` can store `v` so that the table is well formed: now, or after it has rebalanced. */
  ghost predicate Storable(hash: nat -> nat, cells: seq<Cell>, v: Value)
    requires |cells| > 0
  {
    var n, to := |cells|, hash(v.key) % WORD;
    var k := FirstEmpty(cells, to, 0);
    AllPlaced(hash, cells) && ScatteredWith(hash, cells, v) && CleanBut(cells, At(n, to, k)) && (k == 0 ==> cells[At(n, to, 0)].hops == {})
  }

  lemma WellFormedStorable(hash: nat -> nat, cells: seq<Cell>, v: Value)
    requires WellFormed(hash, cells) && ScatteredWith(hash, cells, v)
    ensures Storable(hash, cells, v)
  {
    assert EmptyOk(cells, At(|cells|, hash(v.key) % WORD, 0));
  }

  /** Rebalancing keeps it so: the base cell is not emptied, since the value in it has another hash. */
  lemma ShiftStorable(hash: nat -> nat, cells: seq<Cell>, v: Value)
    requires Sized(hash, cells) && Storable(hash, cells, v)
    requires var to := hash(v.key) % WORD; var k := FirstEmpty(cells, to, 0); REACH < k < |cells| && Shift(hash, cells, to, k).0
    ensures var to := hash(v.key) % WORD; Storable(hash, Shift(hash, cells, to, FirstEmpty(cells, to, 0)).1, v)
  {
    hide Linked, AllPlaced, CleanBut, SameValues, Shift, ScatteredWith, At;
    var n, to := |cells|, hash(v.key) % WORD;
    var k := FirstEmpty(cells, to, 0);
    var s := Shift(hash, cells, to, k);
    NotPrimary(hash, cells, v);
    ShiftKeeps(hash, cells, to, k);
    ShiftCloser(hash, cells, to, k);
    FirstEmptyIs(s.1, to, s.2);
    ScatteredSame(hash, cells, s.1, v);
  }

  lemma NotPrimary(hash: nat -> nat, cells: seq<Cell>, v: Value)
    requires |cells| > 0 && ScatteredWith(hash, cells, v)
    ensures hash(v.key) % WORD + 2 * REACH <= WORD && !Primary(hash, cells, hash(v.key) % WORD, 0)
  {
    var c := cells[At(|cells|, hash(v.key) % WORD, 0)];
    if c.value.Some? { CountHas(cells, c.value.value); }
  }

  lemma FirstEmptyIs(cells: seq<Cell>, to: nat, k: nat)
    requires k < |cells| && FullBelow(cells, to, k) && cells[At(|cells|, to, k)].value.None?
    ensures FirstEmpty(cells, to, 0) == k
  {
    var q := FirstEmpty(cells, to, 0);
    assert q < |cells| ==> cells[At(|cells|, to, q)].value.None?;
  }

  /** Then the store leaves a well-formed table. */
  lemma StorableStored(hash: nat -> nat, cells: seq<Cell>, v: Value)
    requires Sized(hash, cells) && Storable(hash, cells, v)
    requires var k := FirstEmpty(cells, hash(v.key) % WORD, 0); k < |cells| && k <= REACH
    ensures WellFormed(hash, StoredAt(cells, Base(hash, |cells|, v.key), FirstEmpty(cells, hash(v.key) % WORD, 0), v))
  {
    var to := hash(v.key) % WORD;
    var k := FirstEmpty(cells, to, 0);
    AtBase(hash, |cells|, v.key, k);
    AtBase(hash, |cells|, v.key, 0);
    StoreExact(hash, cells, v, k);
  }

  lemma {:induction false} PrefixCount(cells: seq<Cell>, i: nat, v: Value)
    requires i <= |cells|
    ensures Count(cells[..i], v) <= Count(cells, v)
    decreases |cells|
  {
    if i < |cells| {
      assert cells[..|cells| - 1][..i] == cells[..i];
      PrefixCount(cells[..|cells| - 1], i, v);
    } else {
      assert cells[..i] == cells;
    }
  }

  /** The values before one among scattered values are scattered with it. */
  lemma ScatteredPrefix(hash: nat -> nat, cells: seq<Cell>, i: nat)
    requires Scattered(hash, cells) && i < |cells| && cells[i].value.Some?
    ensures ScatteredWith(hash, cells[..i], cells[i].value.value)
  {
    var v := cells[i].value.value;
    assert cells[..i + 1][..i] == cells[..i];
    PrefixCount(cells, i + 1, v);
    assert Count(cells[..i + 1], v) == Count(cells[..i], v) + 1;
    forall u: Value ensures Count(cells[..i], u) <= Count(cells, u) { PrefixCount(cells, i, u); }
    assert Count(cells, v) > 0;
  }

  function FewHashes(key: nat): nat {
    if key == 32 then 32 else 0
  }

  function UpTo(n: nat): (s: set<nat>)
    ensures forall d :: d in s <==> 1 <= d <= n
  {
    if n == 0 then {} else UpTo(n - 1) + {n}
  }

  /** A table of 64 cells: 32 values with the hash 0 and one with the hash 32. */
  function Packed(): seq<Cell> {
    seq(64, i requires 0 <= i < 64 =>
      if i == 0 then Cell(UpTo(31), Some(Value(64, 0))) else if i <= 32 then Cell({}, Some(Value(i, 0))) else Cell({}, None))
  }

  lemma PackedWellFormed()
    ensures WellFormed(FewHashes, Packed())
  {
    var cells := Packed();
    forall j | 0 <= j < 64 ensures PlacedAt(FewHashes, cells, j) && EmptyOk(cells, j) { }
    forall b, d: nat | 0 <= b < 64 ensures HopOk(FewHashes, cells, b, d) { }
  }

  lemma PackedAt(p: nat)
    requires p < 64
    ensures At(64, 0, p) == p && |Packed()| == 64 && Packed()[p].value == if p == 0 then Some(Value(64, 0)) else if p <= 32 then Some(Value(p, 0)) else None
    ensures p > 0 ==> Packed()[p].hops == {}
  {
  }

  lemma PackedStays(x: nat)
    requires 1 <= x < 32
    ensures !Movable(FewHashes, Packed(), 0, x, 33)
  {
    PackedAt(x);
    hide Packed;
  }

  lemma PackedEmpty()
    ensures FirstEmpty(Packed(), 0, 0) == 33
  {
    var k := FirstEmpty(Packed(), 0, 0);
    PackedAt(33);
    if k < 64 { PackedAt(k); }
    hide Packed, FirstEmpty;
    assert Packed()[At(64, 0, 33)].value.None?;
  }

  /** The first turn moves the value in cell 32 to cell 33, since no cell before it can give one. */
  lemma PackedFirst()
    ensures First(FewHashes, Packed(), 0, 1, 33) == 32 && Primary(FewHashes, Packed(), 0, 32)
  {
    PackedAt(32);
    hide Packed;
    assert Movable(FewHashes, Packed(), 0, 32, 33);
    var q := First(FewHashes, Packed(), 0, 1, 33);
    hide First;
    if q < 32 { PackedStays(q); }
  }

  lemma PackedShift()
    ensures Shift(FewHashes, Packed(), 0, 33).0 && Shift(FewHashes, Packed(), 0, 33).2 == 0
  {
    PackedFirst();
    PackedAt(0);
    PackedAt(32);
    PackedAt(33);
    var cells' := Moved(FewHashes, Packed(), 0, 32, 33);
    assert Primary(FewHashes, cells', 0, 0);
    assert First(FewHashes, cells', 0, 0, 32) == 0;
    hide Moved, Primary, First, Packed;
    assert Shift(FewHashes, cells', 0, 32).0 && Shift(FewHashes, cells', 0, 32).2 == 0;
  }

  lemma PackedSettled()
    ensures Sized(FewHashes, Packed()) && Settled(FewHashes, Packed(), 0).Some? && Settled(FewHashes, Packed(), 0).value.1 == 0
  {
    PackedWellFormed();
    PackedEmpty();
    PackedShift();
    PackedAt(33);
    hide Packed, WellFormed, Linked, AllPlaced, SameValues, Shift, FewHashes;
    ShiftKeeps(FewHashes, Packed(), 0, 33);
  }

  lemma PackedEmptied()
    ensures var cells := Packed();
            && |cells| == 64 && WellFormed(FewHashes, cells) && Sized(FewHashes, cells)
            && InsertedIn(FewHashes, cells, Value(65, 0)).Some? && BaseEmptied(FewHashes, cells, Value(65, 0))
  {
    hide Packed, WellFormed, Linked, AllPlaced, Sized, SameValues, Occupied, Settled, FirstEmpty, StoredAt, Base, At;
    PackedWellFormed();
    PackedEmpty();
    PackedSettled();
    PackedAt(0);
    assert FewHashes(65) % WORD == 0;
  }

  /** On this table one more value with the hash 0 takes the base cell, and the 32 values with that
      hash are still there but are not found. */
  lemma BucketLost()
    ensures var cells := Packed();
            && WellFormed(FewHashes, cells) && Sized(FewHashes, cells) && InsertedIn(FewHashes, cells, Value(65, 0)).Some?
            && var cells' := InsertedIn(FewHashes, cells, Value(65, 0)).value;
            && |cells'| == 64 && OneMore(cells, cells', Value(65, 0)) && !WellFormed(FewHashes, cells')
            && forall key, j :: key != 32 && key != 65 ==> !Answers(FewHashes, cells', key, j)
  {
    hide Packed, WellFormed, Sized, Linked, Settled, InsertedIn, BaseEmptied, Tidy, Answers, OneMore, Primary;
    PackedEmptied();
    InsertExact(FewHashes, Packed(), Value(65, 0));
    assert FewHashes(65) % WORD == 0;
  }
}
