/**
 * The drawing page of js/main.js: the session that loads the unselected
 * characters, places them, and answers clicks on the GO / RETURN / Try Again
 * button.
 *
 * `group` is `modelGroup` and `pool` is `kujiList`: the character index of
 * every model is pushed on both when its load completes, so both follow the
 * order in which loads complete. A drawn value is a character index, but the
 * page uses it as a position in `modelGroup`; the model keeps that. Rendering,
 * animation, camera and lights are left out; the clock reading and the
 * Math.random() value of a click are parameters.
 */
module Lottery {
  import opened Wrappers
  import Storage
  import Utils
  import Placement

  /** `new Date() * 1`, in milliseconds. */
  type Time = int

  /** Clicks closer together than this many milliseconds are ignored (js/main.js:194). */
  const CLICK_GUARD := 1000

  /** The minimum distance and attempt count the page lays its characters out with (js/main.js:48). */
  const PLACE_MIN_DISTANCE: real := 3.0
  const PLACE_MAX_ATTEMPTS: int := 50

  /** `btnSelect.status` values. */
  const GO := 1
  const RETURN := 2
  const TRY_AGAIN := 3

  /** What one click did. */
  datatype Outcome =
    | Ignored              // within CLICK_GUARD of the last handled click
    | Drew(character: nat) // the character whose model was brought forward
    | Returned             // back to the overview
    | Reloaded             // selections reset, page reloaded
    | Fault                // the handler threw before finishing

  /** No value occurs twice. */
  ghost predicate Distinct(s: seq<nat>) {
    forall x :: multiset(s)[x] <= 1
  }

  /** `s.indexOf(x)`: the first position of `x`, or -1. */
  function IndexOf(s: seq<nat>, x: nat): (r: int)
    ensures -1 <= r < |s|
    ensures r >= 0 ==> s[r] == x && forall j :: 0 <= j < r ==> s[j] != x
    ensures r == -1 ==> x !in s
  {
    if s == [] then -1
    else if s[0] == x then 0
    else
      var r := IndexOf(s[1..], x);
      if r == -1 then -1 else r + 1
  }

  /** In a sequence without repeats, the first position of an element is its position. */
  lemma IndexOfDistinct(s: seq<nat>, k: nat)
    requires Distinct(s) && k < |s|
    ensures IndexOf(s, s[k]) == k
  {
    var r := IndexOf(s, s[k]);
    if r < k {
      TwoPositions(s, r, k);
    }
  }

  lemma TwoPositions(s: seq<nat>, i: nat, j: nat)
    requires i < j < |s| && s[i] == s[j]
    ensures multiset(s)[s[i]] >= 2
  {
    assert s == s[..i] + [s[i]] + s[i + 1..j] + [s[j]] + s[j + 1..];
  }

  /** Removing the element at `k` removes one occurrence of it. */
  lemma RemoveAt(s: seq<nat>, k: nat)
    requires k < |s|
    ensures multiset(s[..k] + s[k + 1..]) + multiset{s[k]} == multiset(s)
  {
    assert s == s[..k] + [s[k]] + s[k + 1..];
  }

  /** Part of a collection without repeats has no repeats. */
  lemma DistinctPart(part: seq<nat>, rest: seq<nat>, whole: seq<nat>)
    requires multiset(part) + multiset(rest) == multiset(whole) && Distinct(whole)
    ensures Distinct(part)
  {
    forall x ensures multiset(part)[x] <= 1 {
      assert multiset(part)[x] <= multiset(whole)[x];
    }
  }

  /** The values of a sequence, as a set. */
  function Elements(s: seq<nat>): (r: set<nat>)
    ensures forall x :: x in r <==> x in s
  {
    set x | x in s
  }

  lemma {:induction false} DistinctSet(s: seq<nat>)
    requires Distinct(s)
    ensures |Elements(s)| == |s|
  {
    if s != [] {
      assert s == [s[0]] + s[1..];
      DistinctPart(s[1..], [s[0]], s);
      DistinctSet(s[1..]);
      if s[0] in s[1..] {
        var j :| 0 <= j < |s| - 1 && s[1..][j] == s[0];
        TwoPositions(s, 0, j + 1);
      }
      assert Elements(s) == {s[0]} + Elements(s[1..]);
    }
  }

  /** The values below n. */
  function Below(n: nat): (r: set<nat>)
    ensures forall x: nat :: x in r <==> x < n
  {
    if n == 0 then {} else Below(n - 1) + {n - 1}
  }

  lemma {:induction false} BelowSize(n: nat)
    ensures |Below(n)| == n
  {
    if n > 0 {
      var smaller := Below(n - 1);
      BelowSize(n - 1);
      assert n - 1 !in smaller;
      assert Below(n) == smaller + {n - 1};
      assert |smaller + {n - 1}| == |smaller| + 1;
    }
  }

  lemma {:induction false} SubsetSize(a: set<nat>, b: set<nat>)
    requires a <= b
    ensures |a| <= |b|
  {
    if a != {} {
      var x :| x in a;
      SubsetSize(a - {x}, b - {x});
    }
  }

  /** n distinct values below n are all the values below n. */
  lemma Pigeonhole(s: seq<nat>, n: nat)
    requires Distinct(s) && |s| == n
    requires forall x :: x in s ==> x < n
    ensures forall i :: 0 <= i < n ==> i in s
  {
    forall i | 0 <= i < n ensures i in s {
      if i !in s {
        DistinctSet(s);
        BelowSize(n);
        SubsetSize(Elements(s), Below(n) - {i});
      }
    }
  }

  class Session {
    /** The store the page reads and writes (`StorageManager`). */
    const store: Storage.Store
    /** `characters`: the unselected characters, shuffled. */
    const characters: seq<Storage.Character>
    /** `initPos`: one ground position per character. */
    const positions: seq<Placement.Pos>
    /** The spiral cell behind each position. */
    ghost const cells: seq<Placement.Cell>
    /** `modelGroup`, as the character index of each loaded model. */
    var group: seq<nat>
    /** `kujiList`: the character indices still to draw. */
    var pool: seq<nat>
    /** `btnSelect.status`. */
    var status: int
    /** `currentIdx` (-1 when it holds no number). */
    var current: int
    /** `timeStamp` of the last handled click. */
    var lastClick: Time
    /**
     * The button was hidden (js/main.js:357) by a draw that then threw, so
     * it never shows again and no further click reaches the handler.
     */
    var halted: bool
    /** The values drawn from the pool so far. */
    ghost var removed: seq<nat>

    ghost predicate Valid()
      reads this
    {
      (forall i :: 0 <= i < |group| ==> group[i] < |characters|) &&
      Distinct(group) &&
      multiset(pool) + multiset(removed) == multiset(group) &&
      status in {GO, RETURN, TRY_AGAIN} &&
      (status == RETURN ==> 0 <= current < |group|)
    }

    constructor (store: Storage.Store, characters: seq<Storage.Character>, positions: seq<Placement.Pos>,
                 ghost cells: seq<Placement.Cell>)
      ensures this.store == store && this.characters == characters && this.positions == positions
      ensures this.cells == cells
      ensures group == [] && pool == [] && removed == []
      ensures status == GO && current == -1 && lastClick == 0 && !halted
      ensures Valid()
    {
      this.store := store;
      this.characters := characters;
      this.positions := positions;
      this.cells := cells;
      group, pool, removed := [], [], [];
      status, current, lastClick, halted := GO, -1, 0, false;
    }

    /**
     * The completion of `loadModel(idx)` (js/main.js:572-573): the model joins
     * `modelGroup` and its index joins `kujiList`. Each index loads at most once.
     */
    method ModelLoaded(idx: nat)
      requires Valid() && idx < |characters| && idx !in group
      modifies this
      ensures Valid()
      ensures group == old(group) + [idx] && pool == old(pool) + [idx]
      ensures status == old(status) && current == old(current) && lastClick == old(lastClick)
      ensures removed == old(removed) && halted == old(halted)
    {
      assert forall x :: x != idx ==> multiset(group + [idx])[x] == multiset(group)[x];
      group := group + [idx];
      pool := pool + [idx];
    }

    /**
     * The loads started by `for (i ...) loadModel(i)` (js/main.js:166-168),
     * completing in the order `order`; a model that never loads is absent.
     */
    method LoadModels(order: seq<nat>)
      requires Valid() && Distinct(order)
      requires forall j :: 0 <= j < |order| ==> order[j] < |characters| && order[j] !in group
      modifies this
      ensures Valid()
      ensures group == old(group) + order && pool == old(pool) + order
      ensures status == old(status) && current == old(current) && lastClick == old(lastClick)
      ensures removed == old(removed) && halted == old(halted)
    {
      for j := 0 to |order|
        invariant Valid()
        invariant group == old(group) + order[..j] && pool == old(pool) + order[..j]
        invariant status == old(status) && current == old(current) && lastClick == old(lastClick)
        invariant removed == old(removed) && halted == old(halted)
      {
        if order[j] in order[..j] {
          var i :| 0 <= i < j && order[i] == order[j];
          TwoPositions(order, i, j);
        }
        ModelLoaded(order[j]);
        assert order[..j + 1] == order[..j] + [order[j]];
      }
      assert order[..|order|] == order;
    }

    /**
     * `updateStatistics` (js/main.js:230-242): the button becomes Try Again
     * once every stored character is selected.
     */
    method UpdateStatistics()
      requires Valid()
      modifies this
      ensures Valid()
      ensures status == (if Storage.GetStatistics(store.Characters()).isComplete then TRY_AGAIN else old(status))
      ensures group == old(group) && pool == old(pool) && removed == old(removed)
      ensures current == old(current) && lastClick == old(lastClick) && halted == old(halted)
    {
      if Storage.GetStatistics(store.Characters()).isComplete {
        status := TRY_AGAIN;
      }
    }

    /**
     * `kujiList.splice(kujiList.indexOf(v), 1)` (js/main.js:352-355): the
     * first occurrence of `v` leaves the pool, which then no longer holds it.
     */
    method Splice(v: nat)
      requires Valid() && v in pool
      modifies this
      ensures Valid()
      ensures group == old(group) && status == old(status) && halted == old(halted)
      ensures current == old(current) && lastClick == old(lastClick)
      ensures var i := IndexOf(old(pool), v);
        0 <= i && pool == old(pool[..i] + pool[i + 1..]) && v !in pool && removed == old(removed) + [v]
    {
      DistinctPart(pool, removed, group);
      var killIdx := IndexOf(pool, v);
      RemoveAt(pool, killIdx);
      var rest: seq<nat> := pool[..killIdx] + pool[killIdx + 1..];
      var drawn: seq<nat> := removed + [v];
      assert multiset(rest)[v] == 0 by {
        assert multiset(rest)[v] + 1 == multiset(pool)[v] <= 1;
      }
      assert multiset(rest) + multiset(drawn) == multiset(group);
      pool := rest;
      removed := drawn;
    }

    /**
     * `selectedKuji(v)` (js/main.js:350-368, 483-484): takes the first `v`
     * out of `kujiList`, then brings forward `modelGroup[v]`, saving the
     * selection of its character when that has an id, and ends on RETURN.
     * When there is no model at position `v` the handler throws after the
     * splice (`shown` is false), leaving the button hidden. The `updateStatistics()` after the save
     * (js/main.js:366) only refreshes counters on screen here: any status it
     * sets is overwritten with RETURN (js/main.js:484).
     */
    method SelectedKuji(v: nat, now: Time) returns (shown: bool)
      requires Valid() && v in pool && current == v && !halted
      modifies this, store
      ensures Valid()
      ensures group == old(group) && current == old(current) && lastClick == old(lastClick)
      ensures halted == !shown
      ensures var i := IndexOf(old(pool), v);
        0 <= i && pool == old(pool[..i] + pool[i + 1..]) && v !in pool && removed == old(removed) + [v]
      ensures shown <==> v < |group|
      ensures shown ==> status == RETURN
      ensures shown ==> var id := characters[group[v]].id;
        store.saved == (if id != [] then Storage.AfterSelect(old(store.saved), id, now) else old(store.saved))
      ensures !shown ==> status == old(status) && store.saved == old(store.saved)
    {
      Splice(v);
      if v >= |group| {
        halted := true;
        return false;
      }
      var id := characters[group[v]].id;
      if id != [] {
        var _ := store.SelectCharacter(id, now);
      }
      status := RETURN;
      shown := true;
    }

    /**
     * `returnView` (js/main.js:248-341): back to the overview on GO,
     * or on Try Again when every stored character is selected.
     */
    method ReturnView()
      requires Valid() && status == RETURN
      modifies this
      ensures Valid()
      ensures status == (if Storage.GetStatistics(store.Characters()).isComplete then TRY_AGAIN else GO)
      ensures group == old(group) && pool == old(pool) && removed == old(removed)
      ensures current == old(current) && lastClick == old(lastClick) && halted == old(halted)
    {
      status := GO;
      UpdateStatistics();
    }

    /**
     * The status-1 branch of the click handler (js/main.js:198-202): draws
     * `kujiList[floor(u * length)]` and shows it. An empty pool, or a drawn
     * index with no model, makes the handler throw (`Fault`) after it has
     * hidden the button.
     */
    method Draw(u: real, now: Time) returns (outcome: Outcome)
      requires Valid() && status == GO && 0.0 <= u < 1.0 && !halted
      modifies this, store
      ensures Valid() && group == old(group) && lastClick == old(lastClick)
      ensures halted <==> outcome == Fault
      ensures old(pool) == [] ==>
        outcome == Fault && current == -1 && pool == [] && status == GO && store.saved == old(store.saved)
      ensures old(pool) != [] ==>
        var k := Utils.RandomIndex(u, old(|pool|));
        var v := old(pool[k]);
        current == v && pool == old(pool[..k] + pool[k + 1..]) && v !in pool &&
        removed == old(removed) + [v] &&
        if v < |group| then
          var id := characters[group[v]].id;
          outcome == Drew(group[v]) && status == RETURN &&
          store.saved == (if id != [] then Storage.AfterSelect(old(store.saved), id, now) else old(store.saved))
        else
          outcome == Fault && status == GO && store.saved == old(store.saved)
    {
      if pool == [] {
        // kujiList[0] is undefined, and so is modelGroup[undefined]: the handler throws
        current, halted := -1, true;
        return Fault;
      }
      var k := Utils.RandomIndex(u, |pool|);
      var v: nat := pool[k];
      DistinctPart(pool, removed, group);
      IndexOfDistinct(pool, k);
      current := v;
      var shown := SelectedKuji(v, now);
      outcome := if shown then Drew(group[v]) else Fault;
    }

    /**
     * A click on the select button (js/main.js:192-214). `u` is the
     * Math.random() value of the draw; the index is taken with Math.floor.
     * Once a draw has thrown, the button stays hidden and clicks do nothing.
     */
    method Click(now: Time, u: real) returns (outcome: Outcome)
      requires Valid() && 0.0 <= u < 1.0
      modifies this, store
      ensures Valid()
      ensures group == old(group)
      ensures halted <==> old(halted) || outcome == Fault
      ensures old(halted || now - lastClick < CLICK_GUARD) ==>
        outcome == Ignored && pool == old(pool) && removed == old(removed) && status == old(status) && current == old(current) &&
        lastClick == old(lastClick) && store.saved == old(store.saved)
      ensures old(!halted && now - lastClick >= CLICK_GUARD && status == GO && pool == []) ==>
        outcome == Fault && current == -1 && pool == [] && status == GO &&
        lastClick == old(lastClick) && store.saved == old(store.saved)
      ensures old(!halted && now - lastClick >= CLICK_GUARD && status == GO && pool != []) ==>
        var k := Utils.RandomIndex(u, old(|pool|));
        var v := old(pool[k]);
        current == v && pool == old(pool[..k] + pool[k + 1..]) && v !in pool &&
        removed == old(removed) + [v] &&
        if v < |group| then
          var id := characters[group[v]].id;
          outcome == Drew(group[v]) && status == RETURN && lastClick == now &&
          store.saved == (if id != [] then Storage.AfterSelect(old(store.saved), id, now) else old(store.saved))
        else
          outcome == Fault && status == GO && lastClick == old(lastClick) && store.saved == old(store.saved)
      ensures old(!halted && now - lastClick >= CLICK_GUARD && status == RETURN) ==>
        outcome == Returned && pool == old(pool) && removed == old(removed) && current == old(current) && lastClick == now &&
        store.saved == old(store.saved) &&
        status == (if Storage.GetStatistics(store.Characters()).isComplete then TRY_AGAIN else GO)
      ensures old(!halted && now - lastClick >= CLICK_GUARD && status == TRY_AGAIN) ==>
        var d := old(store.Load(now));
        outcome == Reloaded && pool == old(pool) && removed == old(removed) && status == old(status) &&
        current == old(current) && lastClick == now &&
        store.saved == Some(d.(characters := Storage.Unmarked(d.characters), selectedCharacters := [], updatedAt := now))
    {
      if halted || now - lastClick < CLICK_GUARD {
        return Ignored;
      }
      if status == GO {
        outcome := Draw(u, now);
        if outcome == Fault {
          return;
        }
      } else if status == RETURN {
        ReturnView();
        outcome := Returned;
      } else {
        var _ := store.ResetSelections(true, now);
        outcome := Reloaded;
      }
      lastClick := now;
    }
  }

  /**
   * No value is drawn twice: what was drawn is no longer in the pool, and
   * nothing was drawn twice.
   */
  lemma DrawnOnce(s: Session)
    requires s.Valid()
    ensures Distinct(s.removed)
    ensures forall v :: v in s.removed ==> v !in s.pool
  {
    forall x ensures multiset(s.removed)[x] <= 1 {
      assert multiset(s.removed)[x] <= multiset(s.group)[x];
    }
    forall v | v in s.removed ensures v !in s.pool {
      assert multiset(s.removed)[v] >= 1;
      assert multiset(s.group)[v] <= 1;
      assert multiset(s.pool)[v] == 0;
    }
  }

  /**
   * Once every model has loaded, every character has exactly one model and
   * every value in the pool is a position in `modelGroup`, so no draw faults.
   */
  lemma AllLoaded(s: Session)
    requires s.Valid() && |s.group| == |s.characters|
    ensures forall i :: 0 <= i < |s.characters| ==> i in s.group
    ensures s.removed == [] ==> forall i :: 0 <= i < |s.characters| ==> i in s.pool
    ensures forall v :: v in s.pool ==> v < |s.group|
  {
    Pigeonhole(s.group, |s.characters|);
    if s.removed == [] {
      forall i | 0 <= i < |s.characters| ensures i in s.pool {
        assert i in s.group;
        assert multiset(s.group)[i] >= 1;
        assert multiset(s.pool)[i] >= 1;
      }
    }
    forall v | v in s.pool ensures v < |s.group| {
      assert multiset(s.pool)[v] >= 1;
      assert v in multiset(s.group);
      var i :| 0 <= i < |s.group| && s.group[i] == v;
    }
  }

  /**
   * Opening the page (js/main.js:36-48, 188-190, 222): the unselected
   * characters, shuffled, each with a position from generatePositions(n, 3, 50):
   * on the n-th spiral cell, either its centre or jittered within it and at
   * least 3 from every earlier position.
   * With no unselected character the page leaves for the input page.
   */
  method Open(store: Storage.Store, shuffleRandom: nat -> real, placeRandom: nat -> real)
    returns (r: Option<Session>)
    requires forall n :: 0.0 <= shuffleRandom(n) < 1.0
    requires forall n :: 0.0 <= placeRandom(n) < 1.0
    ensures var unselected := Storage.UnselectedCharacters(store.Characters());
      (r.None? <==> unselected == []) &&
      (r.Some? ==>
        fresh(r.value) && r.value.Valid() && r.value.store == store &&
        multiset(r.value.characters) == multiset(unselected) &&
        |r.value.positions| == |unselected| && |r.value.cells| == |unselected| &&
        (forall i :: 0 <= i < |unselected| ==> Placement.SpiralIndex(r.value.cells[i]) == i) &&
        (forall i :: 0 <= i < |unselected| ==>
          r.value.positions[i] == Placement.Center(r.value.cells[i]) ||
          (Placement.Jittered(r.value.positions[i], r.value.cells[i]) &&
           Placement.SeparatedFromEarlier(r.value.positions, i, PLACE_MIN_DISTANCE))) &&
        r.value.group == [] && r.value.pool == [] && r.value.status == GO && !r.value.halted)
  {
    var unselected := Storage.UnselectedCharacters(store.Characters());
    if unselected == [] {
      return None;
    }
    var characters := Utils.Shuffle(unselected, shuffleRandom);
    var positions, _, cells, _, _ := Placement.GeneratePositions(|characters|, PLACE_MIN_DISTANCE, PLACE_MAX_ATTEMPTS, placeRandom);
    var s := new Session(store, characters, positions, cells);
    assert !Storage.GetStatistics(store.Characters()).isComplete;
    s.UpdateStatistics();
    r := Some(s);
  }
}
