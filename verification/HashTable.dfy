/** `hash_table.h` on an array of cells. */
module HashTables {
  import opened Arithmetic
  import opened Basics
  import opened Hopscotch
  import opened Rebalancing

  /** How `_insert` and `_table_resize` end: with success, with 0 because there is no memory, with
      success although a value was dropped on the way because there was no memory, or never, because
      the attempt that needs memory is made again and again. */
  datatype Outcome = Inserted | Failed | Dropped | Endless

  class Table {
    const hash: nat -> nat
    /** Arrays of more cells cannot be allocated. */
    const limit: nat
    var cells: array<Cell>
    /** `table_used`. */
    var used: nat
    /** How often the current thread holds `lock`, which is recursive. */
    var held: nat

    /** What holds even when values cannot be found. */
    ghost predicate Kept()
      reads this, cells
    {
      Sized(hash, cells[..]) && used == Occupied(cells[..]) && cells.Length > 0 && limit <= WORD / 2
    }

    ghost predicate Valid()
      reads this, cells
    {
      Kept() && WellFormed(hash, cells[..])
    }

    /** `_create`. */
    constructor (hash: nat -> nat, capacity: nat, limit: nat)
      requires 0 < capacity < WORD && WORD % capacity == 0 && limit <= WORD / 2
      ensures Valid() && fresh(cells) && cells.Length == capacity && held == 0
      ensures Represents(cells[..], map[])
    {
      this.hash, this.limit := hash, limit;
      cells := new Cell[capacity](_ => Cell({}, None));
      used := 0;
      held := 0;
      new;
      HalfWord(capacity);
      BlankTable(hash, cells[..]);
    }

    /** The index of `hash + i` in 32-bit arithmetic. */
    function Index(key: nat, i: nat): (j: nat)
      requires cells.Length > 0
      reads this, cells
      ensures j < cells.Length
    {
      ((hash(key) + i) % WORD) % cells.Length
    }

    lemma IndexIs(key: nat, i: nat)
      requires cells.Length > 0 && WORD % cells.Length == 0
      ensures Index(key, i) == Forward(cells.Length, Base(hash, cells.Length, key), i)
      ensures Index(key, 0) == Base(hash, cells.Length, key)
    {
      var m := WORD / cells.Length;
      assert cells.Length * m == WORD;
      WrapIndex(hash(key), i, cells.Length, m);
      WrapIndex(hash(key), 0, cells.Length, m);
    }

    /** `_table_get_cell`: a cell with the key is found exactly when there is one. */
    method GetCell(key: nat) returns (r: Option<nat>)
      requires Valid()
      ensures r.Some? ==> Found(cells[..], key, r.value)
      ensures r.None? ==> forall j :: !Found(cells[..], key, j)
    {
      IndexIs(key, 0);
      var b := Index(key, 0);
      r := None;
      ghost var all := cells[..];
      if cells[b].value != None {
        if cells[b].value.value.key == key {
          return Some(b);
        }
        var jump := cells[b].hops;
        while jump != {}
          invariant jump <= all[b].hops
          invariant forall d :: d in all[b].hops && d !in jump ==> !Found(all, key, Forward(|all|, b, d))
        {
          ghost var some :| some in jump;
          assert HopOk(hash, all, b, some);
          var hop := Lowest(jump, 1);
          assert HopOk(hash, all, b, hop);
          IndexIs(key, hop);
          var h := Index(key, hop);
          if cells[h].value.Some? && cells[h].value.value.key == key {
            return Some(h);
          }
          jump := jump - {hop};
        }
      }
      assert EmptyOk(all, b);
      forall j | Found(all, key, j) ensures false {
        NowhereElse(hash, all, key, j);
      }
    }

    /** `_table_get`: some value with the key, exactly when there is one. */
    method Get(key: nat) returns (v: Option<Value>)
      requires Valid()
      ensures v.Some? ==> v.value.key == key && Count(cells[..], v.value) > 0
      ensures v.None? ==> forall w: Value {:trigger Count(cells[..], w)} :: w.key == key ==> Count(cells[..], w) == 0
      ensures forall m {:trigger Represents(cells[..], m)} :: Represents(cells[..], m) ==> v == if key in m then Some(m[key]) else None
    {
      var cell := GetCell(key);
      ghost var all := cells[..];
      v := None;
      if cell == None {
        forall w: Value | w.key == key ensures Count(all, w) == 0 {
          CountHas(all, w);
          forall j | 0 <= j < |all| ensures all[j].value != Some(w) { assert !Found(all, key, j); }
        }
      } else {
        v := cells[cell.value].value;
        CountHas(all, v.value);
      }
      forall m | Represents(all, m) ensures v == if key in m then Some(m[key]) else None { MapGet(all, m, key, v); }
    }

    /** The 32-bit hash of a key. */
    function Hash(key: nat): (h: nat)
      ensures h < WORD
    {
      hash(key) % WORD
    }

    lemma IndexAt(key: nat, i: nat)
      requires cells.Length > 0 && WORD % cells.Length == 0
      ensures Index(key, i) == At(cells.Length, Hash(key), i)
    {
      IndexIs(key, i);
      AtBase(hash, cells.Length, key, i);
    }

    /** The two attempts with which `_insert` begins: the base cell, then the next 32. */
    method TryInsert(v: Value) returns (ok: bool)
      requires Kept()
      modifies cells, this`used
      ensures Kept()
      ensures ok <==> var k := FirstEmpty(old(cells[..]), Hash(v.key), 0); k < cells.Length && k <= REACH
      ensures if ok then used == old(used) + 1 && cells[..] == StoredAt(old(cells[..]), Base(hash, cells.Length, v.key), FirstEmpty(old(cells[..]), Hash(v.key), 0), v)
              else cells[..] == old(cells[..]) && used == old(used)
    {
      ghost var all, to := cells[..], Hash(v.key);
      ghost var k := FirstEmpty(all, to, 0);
      IndexAt(v.key, 0);
      IndexIs(v.key, 0);
      var b := Index(v.key, 0);
      if cells[b].value == None {
        assert k == 0;
        StoreLinked(hash, all, v, 0);
        cells[b] := Cell({}, Some(v));
        used := used + 1;
        assert cells[..] == StoredAt(all, b, 0, v);
        return true;
      }
      for i := 1 to REACH + 1
        invariant cells[..] == all && used == old(used)
        invariant k >= i || k == cells.Length
      {
        IndexAt(v.key, i);
        IndexIs(v.key, i);
        var f := Index(v.key, i);
        if cells[f].value == None {
          Nearby(all, to, i);
          assert k == i;
          StoreLinked(hash, all, v, i);
          cells[b] := Cell(cells[b].hops + {i}, cells[b].value);
          cells[f] := Cell(cells[f].hops, Some(v));
          used := used + 1;
          assert cells[..] == StoredAt(all, b, i, v);
          return true;
        }
        assert i < cells.Length ==> all[At(cells.Length, to, i)].value.Some?;
      }
      ok := false;
    }

    method GivePrimary(empty: nat, b: nat, d: nat)
      requires empty < cells.Length && b < cells.Length && empty != b
      modifies cells
      ensures cells[..] == PrimaryMoved(old(cells[..]), b, d, empty)
    {
      cells[empty] := Cell(cells[empty].hops, cells[b].value);
      cells[b] := Cell(cells[b].hops + {d}, None);
    }

    method GiveHop(empty: nat, b: nat, hop: nat, h: nat, d: nat)
      requires empty < cells.Length && b < cells.Length && h < cells.Length && empty != b && b != h && h != empty
      modifies cells
      ensures cells[..] == HopMoved(old(cells[..]), b, hop, h, d, empty)
    {
      cells[empty] := Cell(cells[empty].hops, cells[h].value);
      cells[b] := Cell(cells[b].hops + {d}, cells[b].value);
      cells[b] := Cell(cells[b].hops - {hop}, cells[b].value);
      cells[h] := Cell(cells[h].hops, None);
    }

    /** `_table_lookup`. */
    function Lookup(h: nat): (j: nat)
      reads this, cells
      requires cells.Length > 0
      ensures j < cells.Length
    {
      h % cells.Length
    }

    /** The cell of hash `h` holds a value with that hash. */
    predicate IsPrimary(h: nat)
      reads this, cells
      requires cells.Length > 0
    {
      cells[Lookup(h)].value.Some? && Hash(cells[Lookup(h)].value.value.key) == h
    }

    /** It does, or it has displaced a value to a cell before the gap. */
    predicate CanGive(h: nat, fromHash: nat)
      reads this, cells
      requires cells.Length > 0
    {
      IsPrimary(h) || var hop := Lowest(cells[Lookup(h)].hops, 1); hop <= REACH && Plus(h, hop) < fromHash
    }

    lemma LookupIs(toHash: nat, p: nat)
      requires cells.Length > 0 && WORD % cells.Length == 0
      ensures Lookup(Word(toHash, p)) == At(cells.Length, toHash, p)
    {
      WordAt(cells.Length, toHash, p);
    }

    lemma CanGiveIs(toHash: nat, p: nat, k: nat)
      requires cells.Length > 0 && WORD % cells.Length == 0
      ensures IsPrimary(Word(toHash, p)) <==> Primary(hash, cells[..], toHash, p)
      ensures CanGive(Word(toHash, p), Word(toHash, k)) <==> Movable(hash, cells[..], toHash, p, k)
    {
      WordAt(cells.Length, toHash, p);
      WordAdd(toHash, p, Lowest(cells[At(cells.Length, toHash, p)].hops, 1));
    }

    /** The cell of hash `h` gives a value to the gap: its own, or the first that it has displaced. */
    method Give(h: nat, fromHash: nat, empty: nat, ghost toHash: nat, ghost p: nat, ghost k: nat) returns (gapHash: nat, gap: nat)
      requires Open(hash, cells[..], toHash, k) && p < k <= p + REACH && k < cells.Length && Movable(hash, cells[..], toHash, p, k)
      requires fromHash == Word(toHash, k) >= REACH && h == Word(toHash, p) && empty == At(cells.Length, toHash, k)
      modifies cells
      ensures cells[..] == Moved(hash, old(cells[..]), toHash, p, k)
      ensures var g := GapAfter(hash, old(cells[..]), toHash, p); gapHash == Word(toHash, g) && gap == At(cells.Length, toHash, g)
    {
      hide *;
      ghost var all := cells[..];
      OpenSize(hash, all, toHash, k);
      WordBack(toHash, p, k);
      LookupIs(toHash, p);
      CanGiveIs(toHash, p, k);
      var b := Lookup(h);
      if IsPrimary(h) {
        GivesPrimary(hash, all, toHash, p, k);
        GivePrimary(empty, b, fromHash - h);
        return h, b;
      }
      var hop := Lowest(cells[b].hops, 1);
      GivesHop(hash, all, toHash, p, k);
      WordAdd(toHash, p, hop);
      LookupIs(toHash, p + hop);
      gapHash := Plus(h, hop);
      gap := Lookup(gapHash);
      GiveHop(empty, b, hop, gap, fromHash - h);
    }

    /** The loop of `_table_move_gap`: the first of the 32 hashes before that of the gap whose cell can
        give a value.  There are none when the subtraction wraps round. */
    method Giver(fromHash: nat, ghost toHash: nat, ghost k: nat) returns (h: nat, ghost p: nat)
      requires cells.Length > 0 && WORD % cells.Length == 0 && REACH <= k && fromHash == Word(toHash, k) < WORD
      ensures fromHash < REACH ==> h >= fromHash
      ensures fromHash >= REACH ==> p == First(hash, cells[..], toHash, k - REACH, k) <= k <= p + REACH && h == Word(toHash, p) == fromHash - (k - p)
    {
      hide Movable, CanGive, IsPrimary, First, At, Word, Minus;
      p := k - REACH;
      MinusIs(fromHash, REACH);
      h := Minus(fromHash, REACH);
      while h < fromHash && !CanGive(h, fromHash)
        invariant if fromHash < REACH then h >= fromHash else k - REACH <= p <= k && h + (k - p) == fromHash
        invariant fromHash >= REACH ==> forall x :: k - REACH <= x < p ==> !Movable(hash, cells[..], toHash, x, k)
      {
        WordBack(toHash, p, k);
        CanGiveIs(toHash, p, k);
        h := h + 1;
        p := p + 1;
      }
      if fromHash >= REACH {
        WordBack(toHash, p, k);
        CanGiveIs(toHash, p, k);
      }
    }

    /** `_table_move_gap`: the first cell that can give a value gives it, and the gap moves there; and so
        on until it is close enough. */
    method MoveGap(fromHash: nat, toHash: nat, empty: nat, ghost k: nat) returns (ok: bool)
      requires Open(hash, cells[..], toHash, k) && REACH <= k && fromHash == Word(toHash, k) && toHash < WORD && empty == At(cells.Length, toHash, k)
      requires k < cells.Length || fromHash < REACH
      modifies cells
      ensures ok == Shift(hash, old(cells[..]), toHash, k).0 && cells[..] == Shift(hash, old(cells[..]), toHash, k).1
      decreases fromHash
    {
      hide Open, Shift, Movable, CanGive, IsPrimary, First, At, Word, Moved, GapAfter, Minus;
      ghost var all := cells[..];
      OpenSize(hash, all, toHash, k);
      var h, p := Giver(fromHash, toHash, k);
      if h >= fromHash {
        ShiftStops(hash, all, toHash, k);
        return false;
      }
      Handed(hash, all, toHash, p, k);
      WordMinus(toHash, p);
      var gapHash, gap := Give(h, fromHash, empty, toHash, p, k);
      if Minus(h, toHash) < REACH {
        return true;
      }
      ok := MoveGap(gapHash, toHash, gap, GapAfter(hash, all, toHash, p));
    }

    /** `_table_rebalance`: the first empty cell from the one 32 places on is brought closer. */
    method Rebalance(key: nat) returns (ok: bool)
      requires Kept() && REACH < FirstEmpty(cells[..], Hash(key), 0) < cells.Length
      modifies cells
      ensures var k := FirstEmpty(old(cells[..]), Hash(key), 0);
              ok == Shift(hash, old(cells[..]), Hash(key), k).0 && cells[..] == Shift(hash, old(cells[..]), Hash(key), k).1
    {
      ghost var all, to := cells[..], Hash(key);
      ghost var k := FirstEmpty(all, to, 0);
      var i := REACH;
      while i < cells.Length
        invariant REACH <= i <= k && cells[..] == all
      {
        IndexAt(key, i);
        var cell := Index(key, i);
        if cells[cell].value == None {
          ok := MoveGap(Plus(Hash(key), i), Hash(key), cell, i);
          return;
        }
        i := i + 1;
      }
      ok := false;
    }

    /** `_table_move_second`: values are pulled into the hole at `e` until one leaves an
        empty cell behind. */
    method MoveSecond(e: nat)
      requires HoleAt(hash, cells[..], e) && cells[e].hops != {}
      modifies cells
      ensures WellFormed(hash, cells[..]) && SameValues(Cleared(old(cells[..]), e), cells[..])
      ensures Occupied(cells[..]) == Occupied(Cleared(old(cells[..]), e))
      decreases Hops(cells[..])
    {
      ghost var all := cells[..];
      ghost var some :| some in all[e].hops;
      assert HopOk(hash, all, e, some);
      var hop := Lowest(cells[e].hops, 1);
      assert HopOk(hash, all, e, hop);
      PullMovesHole(hash, all, e, hop);
      PullCounts(all, e, hop);
      var h := (e + hop) % cells.Length;
      ForwardMod(cells.Length, e, hop);
      cells[e] := Cell(cells[e].hops - {hop}, cells[h].value);
      ghost var mid := cells[..];
      assert mid == Pulled(all, e, hop);
      if cells[h].hops == {} {
        HoleFilled(hash, mid, h);
        cells[h] := Cell(cells[h].hops, None);
        assert cells[..] == Cleared(mid, h);
      } else {
        MoveSecond(h);
      }
    }

    /** The base cell's hop to cell `j` is cleared. */
    method Forget(j: nat, b: nat)
      requires j < cells.Length && b < cells.Length
      modifies cells
      ensures cells[..] == Forgotten(old(cells[..]), b, j)
    {
      if b != j {
        var displacement := (j + cells.Length - b) % cells.Length;
        DisplacementIs(cells.Length, b, j);
        if displacement in cells[b].hops {
          cells[b] := Cell(cells[b].hops - {displacement}, cells[b].value);
        } else {
          assert cells[b].hops - {displacement} == cells[b].hops;
        }
        assert cells[..] == old(cells[..])[b := Cell(old(cells[b].hops) - {displacement}, old(cells[b].value))];
      }
    }

    /** The value in cell `j`, whose base is `b`, is taken out. */
    method RemoveAt(j: nat, b: nat)
      requires Valid() && j < cells.Length && cells[j].value.Some? && b == Base(hash, cells.Length, cells[j].value.value.key)
      modifies cells
      ensures WellFormed(hash, cells[..]) && OneMore(cells[..], old(cells[..]), old(cells[j].value.value))
      ensures Occupied(cells[..]) + 1 == Occupied(old(cells[..]))
    {
      ghost var all := cells[..];
      ForgetMakesHole(hash, all, j);
      ForgottenCounts(all, b, j);
      Forget(j, b);
      ghost var mid := cells[..];
      if cells[j].hops == {} {
        HoleFilled(hash, mid, j);
        cells[j] := Cell(cells[j].hops, None);
        assert cells[..] == Cleared(mid, j);
      } else {
        MoveSecond(j);
      }
    }

    /** `_remove`: one value with the key goes, and nothing else.  When there is none the
        source returns without giving the lock back. */
    method Remove(key: nat) returns (ghost gone: Option<Value>)
      requires Valid()
      modifies cells, this`used, this`held
      ensures Valid()
      ensures gone.Some? ==> gone.value.key == key && OneMore(cells[..], old(cells[..]), gone.value) && used + 1 == old(used)
      ensures gone.None? ==> cells[..] == old(cells[..]) && used == old(used)
      ensures gone.None? <==> forall j :: !Found(old(cells[..]), key, j)
      ensures held == if gone.Some? then old(held) else old(held) + 1
      ensures forall m {:trigger Represents(old(cells[..]), m)} :: Represents(old(cells[..]), m) ==> Represents(cells[..], m - {key}) && (gone.Some? <==> key in m)
    {
      ghost var all := cells[..];
      held := held + 1;
      var cell := GetCell(key);
      gone := None;
      if cell == None {
        assert cells[..] == all;
        assert forall j :: !Found(all, key, j);
        forall m | Represents(all, m) ensures key !in m && m - {key} == m { NoKey(all, m, key); }
        return;
      }
      gone := cells[cell.value].value;
      IndexIs(key, 0);
      RemoveAt(cell.value, Index(key, 0));
      used := used - 1;
      held := held - 1;
      forall m | Represents(all, m) ensures key in m && Represents(cells[..], m - {key}) { MapRemove(all, cells[..], m, gone.value); }
    }

    /** How much larger the table may get. */
    ghost function Left(): nat
      reads this, cells
    {
      if cells.Length <= limit then limit - cells.Length else 0
    }

    /** `_table_resize`: every value goes into a table of twice the size, or of more if inserting them
        makes it grow.  All of them are found there if their hashes differ, or if none of them finds
        the cells within reach full; otherwise `crowd` is one that did. */
    method Resize() returns (o: Outcome, ghost crowd: Option<Crowd>)
      requires Kept()
      modifies this
      ensures Kept() && (held == old(held) || o.Endless?)
      ensures o.Failed? <==> 2 * old(cells.Length) > limit
      ensures if o.Failed? then cells == old(cells) && used == old(used) else fresh(cells) && cells.Length >= 2 * old(cells.Length)
      ensures o.Inserted? ==> SameValues(old(cells[..]), cells[..]) && used == old(used)
      ensures o.Inserted? ==> forall m {:trigger Represents(old(cells[..]), m)} :: Represents(old(cells[..]), m) ==> Represents(cells[..], m)
      ensures o.Inserted? && Scattered(hash, old(cells[..])) ==> WellFormed(hash, cells[..])
      ensures o.Inserted? ==> Crowding(hash, old(cells[..]), None, crowd)
      ensures o.Inserted? && crowd.None? ==> WellFormed(hash, cells[..]) && cells.Length == 2 * old(cells.Length)
      ensures !o.Inserted? ==> 2 * cells.Length > limit
      decreases Left(), 0, 0, 0
    {
      hide WellFormed, Scattered, Crowding, Represents, Storable, OneMore, SameValues, Linked, Occupied;
      crowd := None;
      if 2 * cells.Length > limit {
        return Failed, None;
      }
      var copy := cells;
      ghost var all := copy[..];
      DoubleDivides(copy.Length);
      cells := new Cell[2 * copy.Length](_ => Cell({}, None));
      used := 0;
      BlankTable(hash, cells[..]);
      CopyNone(all, cells[..]);
      CrowdNone(hash, all, None);
      o := Inserted;
      for i := 0 to copy.Length
        invariant Kept() && fresh(cells) && cells != copy && cells.Length >= 2 * copy.Length && copy[..] == all && held == old(held)
        invariant o.Inserted? || (o.Dropped? && 2 * cells.Length > limit)
        invariant o.Inserted? ==> SameValues(all[..i], cells[..]) && used == Occupied(all[..i])
        invariant o.Inserted? && Scattered(hash, all) ==> WellFormed(hash, cells[..])
        invariant o.Inserted? ==> Crowding(hash, all, None, crowd)
        invariant o.Inserted? && crowd.None? ==> WellFormed(hash, cells[..]) && cells.Length == 2 * copy.Length
      {
        ghost var before := cells[..];
        FewerOccupied(all, i);
        CopyBegin(hash, all, i, before);
        if copy[i].value.Some? {
          var o', crowd' := Insert(copy[i].value.value);
          if o'.Endless? {
            return Endless, None;
          }
          if !o'.Inserted? {
            o := Dropped;
          } else if o.Inserted? {
            CopyStep(all, i, before, cells[..]);
            CopyCrowd(hash, all, i, before, crowd');
            if crowd.None? { crowd := crowd'; }
          }
        }
      }
      assert all[..copy.Length] == all;
      if o.Inserted? { MapsSame(all, cells[..]); }
    }

    /** The table is not crowded, or there is an empty cell within reach. */
    ghost predicate Roomy(v: Value)
      reads this, cells
      requires cells.Length > 0
    {
      5 * used <= 4 * cells.Length || var k := FirstEmpty(cells[..], Hash(v.key), 0); k < cells.Length && k <= REACH
    }

    /** `_insert`.  In a roomy table it does what `InsertedIn` says, and if that says nothing the table
        grows.  Only lack of memory can prevent that exactly the value is added.  The table is well
        formed afterwards if the value was storable, or if it was well formed before and no value found
        the cells within reach full; otherwise `crowd` is one that did. */
    method Insert(v: Value) returns (o: Outcome, ghost crowd: Option<Crowd>)
      requires Kept()
      modifies this, cells
      ensures Kept() && (held == old(held) || o.Endless?)
      ensures cells.Length >= old(cells.Length) && (cells == old(cells) || fresh(cells))
      ensures !o.Inserted? ==> 2 * cells.Length > limit
      ensures o.Inserted? ==> OneMore(old(cells[..]), cells[..], v) && used == old(used) + 1
      ensures o.Failed? ==> SameValues(old(cells[..]), cells[..])
      ensures o.Inserted? && Storable(hash, old(cells[..]), v) ==> WellFormed(hash, cells[..])
      ensures o.Inserted? ==> Crowding(hash, old(cells[..]), Some(v), crowd)
      ensures o.Inserted? && crowd.None? && WellFormed(hash, old(cells[..])) ==> WellFormed(hash, cells[..])
      ensures o.Inserted? && crowd.None? ==> cells.Length == if old(Roomy(v)) then old(cells.Length) else 2 * old(cells.Length)
      ensures old(Roomy(v)) ==>
                if InsertedIn(hash, old(cells[..]), v).Some? then o.Inserted? && cells == old(cells) && cells[..] == InsertedIn(hash, old(cells[..]), v).value
                else !o.Inserted? || cells != old(cells)
      ensures o.Inserted? ==>
                forall m {:trigger Represents(old(cells[..]), m)} :: Represents(old(cells[..]), m) && v.key !in m ==> Represents(cells[..], m[v.key := v])
      decreases Left(), 1, Empties(cells[..], Hash(v.key), cells.Length), 1
    {
      hide WellFormed, Storable, OneMore, SameValues, Sized, Occupied, Represents, StoredAt, Scattered, Empties, InsertedIn, FirstEmpty, Crowding;
      ghost var all := cells[..];
      held := held + 1;
      var ok := TryInsert(v);
      if ok {
        held := held - 1;
        InsertNow(hash, all, v);
        MapsInsert(all, cells[..], v);
        CrowdNone(hash, all, Some(v));
        return Inserted, None;
      }
      if 5 * used > 4 * cells.Length {
        var grown, crowd0 := Resize();
        if !grown.Inserted? && !grown.Dropped? {
          return Endless, None;
        }
        held := held - 1;
        SameSelf(all);
        assert all[..|all|] == all;
        FewerOccupied(all, |all|);
        o, crowd := InsertAgain(v, grown, crowd0, all, all);
        return;
      }
      NotFull(all, Hash(v.key));
      o, crowd := InsertRebalanced(v);
    }

    /** The rest of `_insert`, with the lock held, when all cells within reach are full but not more
        than 80% of all. */
    method InsertRebalanced(v: Value) returns (o: Outcome, ghost crowd: Option<Crowd>)
      requires Kept() && held > 0 && 5 * used <= 4 * cells.Length && FirstEmpty(cells[..], Hash(v.key), 0) > REACH
      modifies this, cells
      ensures Kept() && (held + 1 == old(held) || o.Endless?)
      ensures cells.Length >= old(cells.Length) && (cells == old(cells) || fresh(cells))
      ensures !o.Inserted? ==> 2 * cells.Length > limit
      ensures o.Inserted? ==> OneMore(old(cells[..]), cells[..], v) && used == old(used) + 1
      ensures o.Failed? ==> SameValues(old(cells[..]), cells[..])
      ensures o.Inserted? && Storable(hash, old(cells[..]), v) ==> WellFormed(hash, cells[..])
      ensures Crowding(hash, old(cells[..]), Some(v), crowd) && crowd.Some?
      ensures if InsertedIn(hash, old(cells[..]), v).Some? then o.Inserted? && cells == old(cells) && cells[..] == InsertedIn(hash, old(cells[..]), v).value
              else !o.Inserted? || cells != old(cells)
      ensures o.Inserted? ==>
                forall m {:trigger Represents(old(cells[..]), m)} :: Represents(old(cells[..]), m) && v.key !in m ==> Represents(cells[..], m[v.key := v])
      decreases Left(), 1, Empties(cells[..], Hash(v.key), cells.Length), 0
    {
      hide WellFormed, Storable, OneMore, SameValues, Sized, Occupied, Represents, StoredAt, Scattered, Empties, Shift, InsertedIn, FirstEmpty, Crowding;
      ghost var all := cells[..];
      CrowdNow(hash, all, v);
      crowd := Some(Crowd(v, all));
      NotFull(all, Hash(v.key));
      var ok := Rebalance(v.key);
      Rebalanced(hash, all, v);
      ghost var moved, crowd' := cells[..], None;
      if ok {
        held := held - 1;
        o, crowd' := Insert(v);
        if o.Inserted? {
          AddedAfter(all, moved, cells[..], v);
          MapsInsert(all, cells[..], v);
        } else if o.Failed? {
          SameAfter(all, moved, cells[..]);
        }
        return;
      }
      o, crowd' := Resize();
      if o.Endless? {
        return;
      }
      held := held - 1;
      if !o.Failed? {
        o, crowd' := InsertAgain(v, o, crowd', all, moved);
      }
    }

    /** The attempt after the table has grown. */
    method InsertAgain(v: Value, grown: Outcome, ghost crowd0: Option<Crowd>, ghost all: seq<Cell>, ghost moved: seq<Cell>) returns (o: Outcome, ghost crowd: Option<Crowd>)
      requires Kept() && (grown.Inserted? || (grown.Dropped? && 2 * cells.Length > limit))
      requires |all| > 0 && SameValues(all, moved) && |moved| == |all| <= cells.Length
      requires grown.Inserted? ==> SameValues(moved, cells[..]) && (Scattered(hash, moved) ==> WellFormed(hash, cells[..]))
      requires grown.Inserted? ==> Crowding(hash, moved, None, crowd0) && (crowd0.None? ==> WellFormed(hash, cells[..]))
      modifies this, cells
      ensures Kept() && (held == old(held) || o.Endless?)
      ensures cells.Length >= old(cells.Length) && (cells == old(cells) || fresh(cells))
      ensures !o.Inserted? ==> 2 * cells.Length > limit
      ensures o.Inserted? ==> OneMore(all, cells[..], v) && used == old(used) + 1
      ensures o.Failed? ==> SameValues(all, cells[..])
      ensures o.Inserted? && Storable(hash, all, v) ==> WellFormed(hash, cells[..])
      ensures o.Inserted? ==> Crowding(hash, all, Some(v), crowd) && (crowd.None? ==> WellFormed(hash, cells[..]))
      ensures o.Inserted? ==> grown.Inserted?
      ensures o.Inserted? && crowd.None? ==> crowd0.None? && (5 * old(used) <= 4 * old(cells.Length) ==> cells.Length == old(cells.Length))
      ensures o.Inserted? ==> forall m {:trigger Represents(all, m)} :: Represents(all, m) && v.key !in m ==> Represents(cells[..], m[v.key := v])
      decreases Left(), 2, 0, 0
    {
      hide WellFormed, Storable, OneMore, SameValues, Linked, Occupied, Represents, StoredAt, Scattered, Empties, InsertedIn, Crowding;
      ghost var bigger := cells[..];
      o, crowd := Insert(v);
      if !o.Endless? && grown.Dropped? {
        return Dropped, None;
      }
      if o.Inserted? {
        AddedAfter(moved, bigger, cells[..], v);
        AddedAfter(all, moved, cells[..], v);
        MapsInsert(all, cells[..], v);
        StorableGrown(hash, all, moved, bigger, v);
        SameAfter(all, moved, bigger);
        CrowdSmaller(hash, bigger, all, Some(v), Some(v), crowd);
        CrowdSmaller(hash, moved, all, None, Some(v), crowd0);
        if crowd0.Some? { crowd := crowd0; }
      } else if o.Failed? {
        SameAfter(moved, bigger, cells[..]);
        SameAfter(all, moved, cells[..]);
      }
    }

    /** `_next`: the next value at or after `index`, while fewer than `table_used` have been seen. */
    method Next(seen: nat, index: nat) returns (v: Option<Value>, seen': nat, index': nat)
      requires Valid() && index <= cells.Length && seen == Occupied(cells[..index])
      ensures index <= index' <= cells.Length && seen' == Occupied(cells[..index'])
      ensures v.Some? ==> index < index' && Values(cells[..index']) == Values(cells[..index]) + [v.value]
      ensures v.None? ==> Values(cells[..]) == Values(cells[..index])
    {
      seen', index' := seen, index;
      if seen >= used {
        NoMore(cells[..], index);
        return None, seen, index;
      }
      assert cells[..cells.Length] == cells[..];
      while index' < cells.Length
        invariant index <= index' <= cells.Length && seen == Occupied(cells[..index']) && Values(cells[..index']) == Values(cells[..index])
      {
        assert cells[..index' + 1][..index'] == cells[..index'];
        index' := index' + 1;
        if cells[index' - 1].value.Some? {
          return cells[index' - 1].value, seen + 1, index';
        }
      }
      assert false;
      v := None;
    }

    /** A whole enumeration: each value in the table comes once. */
    method Enumerate() returns (out: seq<Value>)
      requires Valid()
      ensures out == Values(cells[..])
      ensures forall v :: multiset(out)[v] == Count(cells[..], v)
    {
      out := [];
      assert cells[..0] == [];
      var v, seen, index := Next(0, 0);
      while v != None
        invariant index <= cells.Length && seen == Occupied(cells[..index])
        invariant v.Some? ==> Values(cells[..index]) == out + [v.value]
        invariant v.None? ==> Values(cells[..]) == out
        decreases cells.Length - index, v.Some?
      {
        out := out + [v.value];
        v, seen, index := Next(seen, index);
      }
      forall w ensures multiset(out)[w] == Count(cells[..], w) { ValuesCount(cells[..], w); }
    }
  }

  /** 32-bit addition. */
  function Plus(h: nat, d: nat): nat {
    (h + d) % WORD
  }

  /** 32-bit subtraction. */
  function Minus(h: nat, d: nat): nat
    requires d <= WORD
  {
    (h + WORD - d) % WORD
  }

  /** The values in the cells, in order. */
  function Values(cells: seq<Cell>): seq<Value> {
    if cells == [] then []
    else Values(cells[..|cells| - 1]) + if cells[|cells| - 1].value.Some? then [cells[|cells| - 1].value.value] else []
  }

  lemma {:induction false} ValuesCount(cells: seq<Cell>, v: Value)
    ensures multiset(Values(cells))[v] == Count(cells, v)
    decreases |cells|
  {
    if cells != [] { ValuesCount(cells[..|cells| - 1], v); }
  }

  lemma {:induction false} FewerOccupied(cells: seq<Cell>, i: nat)
    requires i <= |cells|
    ensures Occupied(cells[..i]) <= i
    decreases i
  {
    if i > 0 {
      assert cells[..i][..i - 1] == cells[..i - 1];
      FewerOccupied(cells, i - 1);
    }
  }

  /** When as many have been seen as there are, the rest is empty. */
  lemma {:induction false} NoMore(cells: seq<Cell>, index: nat)
    requires index <= |cells| && Occupied(cells[..index]) >= Occupied(cells)
    ensures Values(cells) == Values(cells[..index]) && Occupied(cells[..index]) == Occupied(cells)
    decreases |cells|
  {
    if index < |cells| {
      var n := |cells| - 1;
      assert cells[..n][..index] == cells[..index];
      PrefixOccupied(cells[..n], index);
      NoMore(cells[..n], index);
    } else {
      assert cells[..index] == cells;
    }
  }

  lemma {:induction false} PrefixOccupied(cells: seq<Cell>, index: nat)
    requires index <= |cells|
    ensures Occupied(cells[..index]) <= Occupied(cells)
    decreases |cells|
  {
    if index < |cells| {
      assert cells[..|cells| - 1][..index] == cells[..index];
      PrefixOccupied(cells[..|cells| - 1], index);
    } else {
      assert cells[..index] == cells;
    }
  }

  lemma PullCounts(cells: seq<Cell>, e: nat, d: nat)
    requires e < |cells| && d in cells[e].hops && Forward(|cells|, e, d) < |cells| && Forward(|cells|, e, d) != e && cells[Forward(|cells|, e, d)].value.Some?
    ensures Hops(Pulled(cells, e, d)) < Hops(cells)
    ensures Occupied(Cleared(Pulled(cells, e, d), Forward(|cells|, e, d))) == Occupied(Cleared(cells, e))
  {
    var h, cells' := Forward(|cells|, e, d), Pulled(cells, e, d);
    HopsUpdate(cells, e, cells'[e]);
    OccupiedUpdate(cells, e, cells'[e]);
    OccupiedUpdate(cells, e, Cell(cells[e].hops, None));
    OccupiedUpdate(cells', h, Cell(cells'[h].hops, None));
  }

  lemma ForgottenCounts(cells: seq<Cell>, b: nat, j: nat)
    requires b < |cells| && j < |cells| && cells[j].value.Some?
    ensures Occupied(Cleared(Forgotten(cells, b, j), j)) + 1 == Occupied(cells)
  {
    var cells' := Forgotten(cells, b, j);
    OccupiedUpdate(cells, b, cells'[b]);
    OccupiedUpdate(cells', j, Cell(cells'[j].hops, None));
  }

  lemma DisplacementIs(n: nat, b: nat, j: nat)
    requires b < n && j < n
    ensures (j + n - b) % n == Distance(n, b, j)
  {
    if b <= j {
      Euclid(j + n - b, n, 1, j - b);
    } else {
      Euclid(j + n - b, n, 0, j + n - b);
    }
  }

  /** In a table of 32 cells or fewer the first empty cell is met before the search comes round. */
  lemma Nearby(cells: seq<Cell>, to: nat, i: nat)
    requires |cells| > 0 && cells[At(|cells|, to, i)].value.None? && (FirstEmpty(cells, to, 0) >= i || FirstEmpty(cells, to, 0) == |cells|)
    ensures i < |cells| && FirstEmpty(cells, to, 0) == i
  {
    var n, f := |cells|, At(|cells|, to, i);
    ForwardDistance(n, to % n, f);
    assert At(n, to, Distance(n, to % n, f)) == f;
    if i < n { DistanceForward(n, to % n, i); }
  }

  /** A value, and a table in which all cells within its reach are full. */
  datatype Crowd = Crowd(value: Value, cells: seq<Cell>)

  /** The value, and the values in the table, are among those of `cells` and `v`; and the table is not
      smaller. */
  ghost predicate Crowding(hash: nat -> nat, cells: seq<Cell>, v: Option<Value>, crowd: Option<Crowd>) {
    crowd.Some? ==>
      var w, t := crowd.value.value, crowd.value.cells;
      && |t| >= |cells| && |t| > 0 && FirstEmpty(t, hash(w.key) % WORD, 0) > REACH
      && (v == Some(w) || Count(cells, w) > 0)
      && forall u {:trigger Count(t, u)} :: Count(t, u) <= Count(cells, u) + if v == Some(u) then 1 else 0
  }

  lemma CrowdNone(hash: nat -> nat, cells: seq<Cell>, v: Option<Value>)
    ensures Crowding(hash, cells, v, None)
  {
  }

  lemma CrowdNow(hash: nat -> nat, cells: seq<Cell>, v: Value)
    requires |cells| > 0 && FirstEmpty(cells, hash(v.key) % WORD, 0) > REACH
    ensures Crowding(hash, cells, Some(v), Some(Crowd(v, cells)))
  {
  }

  lemma CrowdSmaller(hash: nat -> nat, cells: seq<Cell>, cells': seq<Cell>, v: Option<Value>, v': Option<Value>, crowd: Option<Crowd>)
    requires Crowding(hash, cells, v, crowd) && SameValues(cells', cells) && |cells'| <= |cells| && (v.None? || v == v')
    ensures Crowding(hash, cells', v', crowd)
  {
    if crowd.Some? {
      var w, t := crowd.value.value, crowd.value.cells;
      assert Count(cells, w) == Count(cells', w);
      forall u {:trigger Count(t, u)} ensures Count(t, u) <= Count(cells', u) + if v' == Some(u) then 1 else 0 { assert Count(cells, u) == Count(cells', u); }
    }
  }

  /** While a table is copied. */
  lemma CopyCrowd(hash: nat -> nat, all: seq<Cell>, i: nat, cells: seq<Cell>, crowd: Option<Crowd>)
    requires i < |all| && all[i].value.Some? && SameValues(all[..i], cells) && |all| <= |cells| && Crowding(hash, cells, all[i].value, crowd)
    ensures Crowding(hash, all, None, crowd)
  {
    if crowd.Some? {
      var w, t, v := crowd.value.value, crowd.value.cells, all[i].value.value;
      assert all[..i + 1][..i] == all[..i];
      forall u {:trigger Count(t, u)} ensures Count(t, u) <= Count(all, u) {
        PrefixCount(all, i + 1, u);
        assert Count(cells, u) == Count(all[..i], u);
      }
      PrefixCount(all, i + 1, w);
      assert Count(cells, w) == Count(all[..i], w);
    }
  }

  lemma CopyNone(all: seq<Cell>, cells: seq<Cell>)
    requires forall v :: Count(cells, v) == 0
    ensures SameValues(all[..0], cells) && Occupied(all[..0]) == 0
  {
  }

  lemma CopyBegin(hash: nat -> nat, all: seq<Cell>, i: nat, cells: seq<Cell>)
    requires i < |all|
    ensures all[i].value.None? && SameValues(all[..i], cells) ==> SameValues(all[..i + 1], cells) && Occupied(all[..i + 1]) == Occupied(all[..i])
    ensures all[i].value.Some? && SameValues(all[..i], cells) && Scattered(hash, all) && WellFormed(hash, cells) ==> Storable(hash, cells, all[i].value.value)
  {
    assert all[..i + 1][..i] == all[..i];
    if all[i].value.None? && SameValues(all[..i], cells) {
      forall w ensures Count(cells, w) == Count(all[..i + 1], w) { assert Count(cells, w) == Count(all[..i], w); }
    }
    if all[i].value.Some? && SameValues(all[..i], cells) && Scattered(hash, all) && WellFormed(hash, cells) {
      ScatteredPrefix(hash, all, i);
      ScatteredSame(hash, all[..i], cells, all[i].value.value);
      WellFormedStorable(hash, cells, all[i].value.value);
    }
  }

  lemma CopyStep(all: seq<Cell>, i: nat, cells: seq<Cell>, cells': seq<Cell>)
    requires i < |all| && all[i].value.Some? && SameValues(all[..i], cells) && OneMore(cells, cells', all[i].value.value)
    ensures SameValues(all[..i + 1], cells') && Occupied(all[..i + 1]) == Occupied(all[..i]) + 1
  {
    assert all[..i + 1][..i] == all[..i];
    forall w ensures Count(cells', w) == Count(all[..i + 1], w) { assert Count(cells, w) == Count(all[..i], w); }
  }

  /** Not all cells of a table that is not crowded are full. */
  lemma NotFull(cells: seq<Cell>, to: nat)
    requires |cells| > 0 && 5 * Occupied(cells) <= 4 * |cells|
    ensures FirstEmpty(cells, to, 0) < |cells|
  {
    var n := |cells|;
    if FirstEmpty(cells, to, 0) == n {
      forall j | 0 <= j < n ensures cells[j].value.Some? {
        ForwardDistance(n, to % n, j);
        assert At(n, to, Distance(n, to % n, j)) == j;
      }
      FullOccupied(cells);
    }
  }

  lemma {:induction false} FullOccupied(cells: seq<Cell>)
    requires forall j :: 0 <= j < |cells| ==> cells[j].value.Some?
    ensures Occupied(cells) == |cells|
    decreases |cells|
  {
    if cells != [] { FullOccupied(cells[..|cells| - 1]); }
  }

  /** The value finds an empty cell within reach. */
  lemma InsertNow(hash: nat -> nat, cells: seq<Cell>, v: Value)
    requires Sized(hash, cells)
    requires var k := FirstEmpty(cells, hash(v.key) % WORD, 0); k < |cells| && k <= REACH
    ensures var k := FirstEmpty(cells, hash(v.key) % WORD, 0); var cells' := StoredAt(cells, Base(hash, |cells|, v.key), k, v);
            && InsertedIn(hash, cells, v) == Some(cells') && OneMore(cells, cells', v)
            && (Storable(hash, cells, v) || WellFormed(hash, cells) ==> WellFormed(hash, cells'))
  {
    var k := FirstEmpty(cells, hash(v.key) % WORD, 0);
    AtBase(hash, |cells|, v.key, k);
    StoreLinked(hash, cells, v, k);
    if Storable(hash, cells, v) {
      StorableStored(hash, cells, v);
    } else if WellFormed(hash, cells) {
      AtBase(hash, |cells|, v.key, 0);
      assert EmptyOk(cells, Base(hash, |cells|, v.key));
      StoreExact(hash, cells, v, k);
    }
  }

  /** It finds one after rebalancing, or the table has to grow. */
  lemma Rebalanced(hash: nat -> nat, cells: seq<Cell>, v: Value)
    requires Sized(hash, cells) && var k := FirstEmpty(cells, hash(v.key) % WORD, 0); REACH < k < |cells|
    ensures var to := hash(v.key) % WORD; var s := Shift(hash, cells, to, FirstEmpty(cells, to, 0));
            && Sized(hash, s.1) && SameValues(cells, s.1) && Occupied(s.1) == Occupied(cells)
            && (s.0 ==> Empties(s.1, to, |cells|) < Empties(cells, to, |cells|) && InsertedIn(hash, s.1, v) == InsertedIn(hash, cells, v))
            && (s.0 && Storable(hash, cells, v) ==> Storable(hash, s.1, v))
            && (!s.0 ==> InsertedIn(hash, cells, v).None?)
  {
    var to := hash(v.key) % WORD;
    var k := FirstEmpty(cells, to, 0);
    ShiftKeeps(hash, cells, to, k);
    ShiftLighter(hash, cells, to, k);
    if Shift(hash, cells, to, k).0 && Storable(hash, cells, v) { ShiftStorable(hash, cells, v); }
  }

  lemma SameSelf(cells: seq<Cell>)
    ensures SameValues(cells, cells)
  {
  }

  lemma SameAfter(cells: seq<Cell>, mid: seq<Cell>, cells': seq<Cell>)
    requires SameValues(cells, mid) && SameValues(mid, cells')
    ensures SameValues(cells, cells')
  {
    forall w ensures Count(cells', w) == Count(cells, w) { assert Count(mid, w) == Count(cells, w); }
  }

  lemma AddedAfter(cells: seq<Cell>, mid: seq<Cell>, cells': seq<Cell>, v: Value)
    requires SameValues(cells, mid) && OneMore(mid, cells', v)
    ensures OneMore(cells, cells', v)
  {
    forall w ensures Count(cells', w) == Count(cells, w) + if w == v then 1 else 0 { assert Count(mid, w) == Count(cells, w); }
  }

  lemma MapsInsert(cells: seq<Cell>, cells': seq<Cell>, v: Value)
    requires OneMore(cells, cells', v)
    ensures forall m {:trigger Represents(cells, m)} :: Represents(cells, m) && v.key !in m ==> Represents(cells', m[v.key := v])
  {
    forall m | Represents(cells, m) && v.key !in m ensures Represents(cells', m[v.key := v]) { MapInsert(cells, cells', m, v); }
  }

  lemma MapsSame(cells: seq<Cell>, cells': seq<Cell>)
    requires SameValues(cells, cells')
    ensures forall m {:trigger Represents(cells, m)} :: Represents(cells, m) ==> Represents(cells', m)
  {
    forall m | Represents(cells, m) ensures Represents(cells', m) { MapSame(cells, cells', m); }
  }

  lemma StorableGrown(hash: nat -> nat, cells: seq<Cell>, moved: seq<Cell>, bigger: seq<Cell>, v: Value)
    requires |cells| > 0 && |bigger| > 0 && SameValues(cells, moved) && SameValues(moved, bigger) && (Scattered(hash, moved) ==> WellFormed(hash, bigger))
    ensures Storable(hash, cells, v) ==> Storable(hash, bigger, v)
  {
    if Storable(hash, cells, v) {
      ScatteredSame(hash, cells, moved, v);
      ScatteredSame(hash, moved, bigger, v);
      WellFormedStorable(hash, bigger, v);
    }
  }

  lemma BlankTable(hash: nat -> nat, cells: seq<Cell>)
    requires |cells| > 0 && forall i :: 0 <= i < |cells| ==> cells[i] == Cell({}, None)
    ensures Linked(hash, cells) && WellFormed(hash, cells) && Occupied(cells) == 0 && forall v :: Count(cells, v) == 0
  {
    forall v ensures Count(cells, v) == 0 { BlankCount(cells, v); }
    BlankOccupied(cells);
  }

  lemma {:induction false} BlankCount(cells: seq<Cell>, v: Value)
    requires forall i :: 0 <= i < |cells| ==> cells[i].value == None
    ensures Count(cells, v) == 0
    decreases |cells|
  {
    if cells != [] { BlankCount(cells[..|cells| - 1], v); }
  }

  lemma {:induction false} BlankOccupied(cells: seq<Cell>)
    requires forall i :: 0 <= i < |cells| ==> cells[i].value == None
    ensures Occupied(cells) == 0
    decreases |cells|
  {
    if cells != [] { BlankOccupied(cells[..|cells| - 1]); }
  }

  lemma WordAt(n: nat, to: nat, p: nat)
    requires n > 0 && WORD % n == 0
    ensures Word(to, p) % n == At(n, to, p)
  {
    var m := Quotient(WORD, n);
    WrapIndex(to, p, n, m);
  }

  lemma WordAdd(to: nat, p: nat, d: nat)
    ensures Plus(Word(to, p), d) == Word(to, p + d)
  {
    AddMod(to + p, d, WORD);
  }

  lemma ShiftStops(hash: nat -> nat, cells: seq<Cell>, to: nat, k: nat)
    requires |cells| > 0 && k >= REACH && (Word(to, k) < REACH || First(hash, cells, to, k - REACH, k) == k)
    ensures Shift(hash, cells, to, k) == (false, cells, k)
  {
  }

  /** What `_table_move_gap` may count on once it has moved a value. */
  lemma Handed(hash: nat -> nat, cells: seq<Cell>, to: nat, p: nat, k: nat)
    requires Open(hash, cells, to, k) && REACH <= k <= p + REACH && p < k < |cells| && to < WORD && Word(to, k) >= REACH
    requires First(hash, cells, to, k - REACH, k) == p
    ensures Open(hash, Moved(hash, cells, to, p, k), to, GapAfter(hash, cells, to, p))
    ensures p < REACH ==> Shift(hash, cells, to, k) == (true, Moved(hash, cells, to, p, k), GapAfter(hash, cells, to, p))
    ensures p >= REACH ==> Shift(hash, cells, to, k) == Shift(hash, Moved(hash, cells, to, p, k), to, GapAfter(hash, cells, to, p))
    ensures GapAfter(hash, cells, to, p) < |cells| || Word(to, GapAfter(hash, cells, to, p)) < REACH
    ensures Word(to, GapAfter(hash, cells, to, p)) < Word(to, k)
  {
    hide Linked, AllPlaced, CleanBut, Swapped, First, At, Word, Moved, Weight;
    MovedGap(hash, cells, to, p, k);
    WordBack(to, p, k);
    Lighter(|cells|, to, p, GapAfter(hash, cells, to, p), k);
  }

  lemma MinusIs(h: nat, d: nat)
    requires h < WORD && d < WORD
    ensures Minus(h, d) == if h < d then h + WORD - d else h - d
  {
  }

  lemma WordMinus(to: nat, p: nat)
    requires to < WORD && p < WORD
    ensures Minus(Word(to, p), to) == p
  {
    WordIs(to, p);
  }

  lemma OpenSize(hash: nat -> nat, cells: seq<Cell>, to: nat, k: nat)
    requires Open(hash, cells, to, k)
    ensures |cells| > 0 && WORD % |cells| == 0 && Word(to, k) < WORD
  {
  }

  lemma GivesPrimary(hash: nat -> nat, cells: seq<Cell>, to: nat, p: nat, k: nat)
    requires p < k < |cells| && Primary(hash, cells, to, p)
    ensures var n := |cells|; At(n, to, p) != At(n, to, k) && Moved(hash, cells, to, p, k) == PrimaryMoved(cells, At(n, to, p), k - p, At(n, to, k))
    ensures GapAfter(hash, cells, to, p) == p
  {
    AtApart(|cells|, to, p, k);
  }

  lemma GivesHop(hash: nat -> nat, cells: seq<Cell>, to: nat, p: nat, k: nat)
    requires Open(hash, cells, to, k) && p < k < |cells| && k <= p + REACH && Movable(hash, cells, to, p, k) && !Primary(hash, cells, to, p)
    ensures var n := |cells|; var hop := Lowest(cells[At(n, to, p)].hops, 1);
            && GapAfter(hash, cells, to, p) == p + hop
            && At(n, to, p) != At(n, to, k) && At(n, to, p + hop) != At(n, to, k) && At(n, to, p) != At(n, to, p + hop)
            && Moved(hash, cells, to, p, k) == HopMoved(cells, At(n, to, p), hop, At(n, to, p + hop), k - p, At(n, to, k))
  {
    hide Linked, At, Word, AllPlaced, CleanBut, HopMoved;
    MovedGap(hash, cells, to, p, k);
    AtApart(|cells|, to, p, k);
    HopApart(hash, cells, to, p, k);
  }

  lemma HopApart(hash: nat -> nat, cells: seq<Cell>, to: nat, p: nat, k: nat)
    requires Open(hash, cells, to, k) && Near(cells, to, p, k)
    ensures var hop := Lowest(cells[At(|cells|, to, p)].hops, 1); At(|cells|, to, p) != At(|cells|, to, p + hop)
  {
    var b := At(|cells|, to, p);
    var hop := Lowest(cells[b].hops, 1);
    assert 1 <= hop < |cells| by { assert HopOk(hash, cells, b, hop); }
    hide Linked, Open, Near, Word, Lowest;
    ForwardAdd(|cells|, to % |cells|, p, hop);
    DistanceForward(|cells|, b, hop);
  }
}
