/**
 * The character store of js/storage.js (`StorageManager`).
 *
 * The localStorage entry under 'kujikuji', read with JSON.parse and written
 * with JSON.stringify, is the single field `saved` of class `Store`
 * (`None` when the entry is absent). Every operation loads the record
 * (`Load`: the saved record or a fresh default one), changes it and saves it
 * back, stamping `updatedAt`. Clock readings, generated ids and avatar seeds
 * are parameters.
 */
module Storage {
  import opened Wrappers

  /** A `new Date()` reading, in milliseconds. */
  type Time = int

  datatype Character = Character(
    id: string,
    name: string,
    avatarSeed: string,
    selected: bool,
    selectedAt: Option<Time>,
    createdAt: Time)

  /** One entry of the draw-order log `selectedCharacters`. */
  datatype Selection = Selection(id: string, name: string, selectedAt: Time)

  /** The stored record. */
  datatype StoreData = StoreData(
    characters: seq<Character>,
    selectedCharacters: seq<Selection>,
    createdAt: Time,
    updatedAt: Time)

  /** `getDefaultData` (js/storage.js:15-22). */
  function DefaultData(now: Time): StoreData {
    StoreData([], [], now, now)
  }

  /** `loadData` (js/storage.js:28-40) given what localStorage holds. */
  function LoadOr(saved: Option<StoreData>, now: Time): StoreData {
    saved.GetOr(DefaultData(now))
  }

  // ---- trimming ------------------------------------------------------------

  /** The characters String.prototype.trim removes: white space and line terminators. */
  predicate IsSpace(ch: char) {
    ch == '\t' || ch == '\n' || ch == '\U{B}' || ch == '\U{C}' || ch == '\r' || ch == ' ' ||
    ch == '\U{A0}' || ch == '\U{1680}' || ('\U{2000}' <= ch <= '\U{200A}') ||
    ch == '\U{2028}' || ch == '\U{2029}' || ch == '\U{202F}' || ch == '\U{205F}' ||
    ch == '\U{3000}' || ch == '\U{FEFF}'
  }

  function TrimStart(s: string): (r: string)
    ensures |r| <= |s| && r == s[|s| - |r|..]
    ensures forall k :: 0 <= k < |s| - |r| ==> IsSpace(s[k])
    ensures r != [] ==> !IsSpace(r[0])
  {
    if s != [] && IsSpace(s[0]) then TrimStart(s[1..]) else s
  }

  function TrimEnd(s: string): (r: string)
    ensures |r| <= |s| && r == s[..|r|]
    ensures forall k :: |r| <= k < |s| ==> IsSpace(s[k])
    ensures r != [] ==> !IsSpace(r[|r| - 1])
  {
    if s != [] && IsSpace(s[|s| - 1]) then TrimEnd(s[..|s| - 1]) else s
  }

  /** `name.trim()`. */
  function Trim(s: string): string {
    TrimEnd(TrimStart(s))
  }

  /** A name is skipped by `addCharacters` exactly when it is all white space. */
  lemma BlankIffAllSpace(s: string)
    ensures Trim(s) == [] <==> forall k :: 0 <= k < |s| ==> IsSpace(s[k])
  {
  }

  /** Trimming trimmed text changes nothing. */
  lemma TrimIdempotent(s: string)
    ensures Trim(Trim(s)) == Trim(s)
  {
    var t := Trim(s);
    if t != [] {
      assert TrimStart(t) == t;
      assert TrimEnd(t) == t;
    }
  }

  // ---- queries -------------------------------------------------------------

  /** `data.characters.find(c => c.id === id)`, as the index it finds. */
  function FirstIndex(cs: seq<Character>, id: string): (r: Option<nat>)
    ensures r.Some? ==> r.value < |cs| && cs[r.value].id == id
    ensures r.Some? ==> forall j :: 0 <= j < r.value ==> cs[j].id != id
    ensures r.None? ==> forall j :: 0 <= j < |cs| ==> cs[j].id != id
  {
    if cs == [] then None
    else if cs[0].id == id then Some(0)
    else match FirstIndex(cs[1..], id)
      case None => None
      case Some(i) => Some(i + 1)
  }

  /** `getUnselectedCharacters` (js/storage.js:183-186): `filter(c => !c.selected)`. */
  function UnselectedCharacters(cs: seq<Character>): (r: seq<Character>)
    ensures |r| <= |cs|
    ensures forall c :: c in r <==> c in cs && !c.selected
  {
    if cs == [] then []
    else (if cs[0].selected then [] else [cs[0]]) + UnselectedCharacters(cs[1..])
  }

  /** `getSelectedCharacters` (js/storage.js:192-195): `filter(c => c.selected)`. */
  function SelectedCharacters(cs: seq<Character>): (r: seq<Character>)
    ensures |r| <= |cs|
    ensures forall c :: c in r <==> c in cs && c.selected
  {
    if cs == [] then []
    else (if cs[0].selected then [cs[0]] else []) + SelectedCharacters(cs[1..])
  }

  /** Both filters keep the stored order: filtering a concatenation filters each part. */
  lemma {:induction false} FiltersKeepOrder(a: seq<Character>, b: seq<Character>)
    ensures UnselectedCharacters(a + b) == UnselectedCharacters(a) + UnselectedCharacters(b)
    ensures SelectedCharacters(a + b) == SelectedCharacters(a) + SelectedCharacters(b)
  {
    if a != [] {
      assert (a + b)[1..] == a[1..] + b;
      FiltersKeepOrder(a[1..], b);
    } else {
      assert a + b == b;
    }
  }

  /** Every character is in exactly one of the two filters. */
  lemma {:induction false} FiltersPartition(cs: seq<Character>)
    ensures |UnselectedCharacters(cs)| + |SelectedCharacters(cs)| == |cs|
  {
    if cs != [] {
      FiltersPartition(cs[1..]);
    }
  }

  lemma DivBelow(a: int, b: int, c: int)
    requires b > 0 && 0 <= a < b * c
    ensures a / b < c
  {
  }

  lemma DivAtLeast(a: int, b: int, c: int)
    requires b > 0 && b * c <= a
    ensures a / b >= c
  {
    assert a == (a / b) * b + a % b;
    assert c * b < (a / b + 1) * b;
    MulCancel(c, a / b + 1, b);
  }

  lemma MulCancel(x: int, y: int, b: int)
    requires b > 0 && x * b < y * b
    ensures x < y
  {
  }

  /**
   * `Math.round((selected / total) * 100)` for 0 < total, in exact
   * arithmetic: the whole number nearest to 100 * selected / total, a tie
   * going up.
   */
  function RoundedPercent(selected: nat, total: nat): (p: nat)
    requires 0 < total && selected <= total
    ensures (2 * p - 1) * total <= 200 * selected < (2 * p + 1) * total
    ensures p <= 100
    ensures selected == 0 ==> p == 0
    ensures selected == total ==> p == 100
  {
    PercentBounds(selected, total);
    (200 * selected + total) / (2 * total)
  }

  lemma PercentBounds(selected: nat, total: nat)
    requires 0 < total && selected <= total
    ensures var p := (200 * selected + total) / (2 * total);
      (2 * p - 1) * total <= 200 * selected < (2 * p + 1) * total
    ensures (200 * selected + total) / (2 * total) <= 100
    ensures selected == 0 ==> (200 * selected + total) / (2 * total) == 0
    ensures selected == total ==> (200 * selected + total) / (2 * total) == 100
  {
    var a, b := 200 * selected + total, 2 * total;
    var q := a / b;
    assert a == q * b + a % b && 0 <= a % b < b;
    assert q * b == 2 * q * total;
    assert (2 * q - 1) * total == 2 * q * total - total;
    assert (2 * q + 1) * total == 2 * q * total + total;
    DivBelow(200 * selected + total, 2 * total, 101);
    if selected == 0 {
      DivBelow(total, 2 * total, 1);
    }
    if selected == total {
      DivAtLeast(201 * total, 2 * total, 100);
    }
  }

  datatype Statistics = Statistics(
    total: nat,
    selected: nat,
    remaining: int,
    percentage: nat,
    isComplete: bool)

  /** `getStatistics` (js/storage.js:312-325). */
  function GetStatistics(cs: seq<Character>): (s: Statistics)
    ensures s.total == |cs|
    ensures s.selected == |SelectedCharacters(cs)| && s.remaining == |UnselectedCharacters(cs)|
    ensures s.selected + s.remaining == s.total
    ensures s.isComplete <==> s.remaining == 0 && s.total > 0
    ensures s.percentage <= 100
    ensures s.total == 0 ==> s.percentage == 0
    ensures s.isComplete ==> s.percentage == 100
    ensures s.total > 0 ==> s.percentage == RoundedPercent(s.selected, s.total)
  {
    FiltersPartition(cs);
    var total := |cs|;
    var selected := |SelectedCharacters(cs)|;
    var remaining := total - selected;
    Statistics(total, selected, remaining,
      if total > 0 then RoundedPercent(selected, total) else 0,
      remaining == 0 && total > 0)
  }

  // ---- record updates --------------------------------------------------------

  /** A character marked as drawn at `now` (js/storage.js:207-208). */
  function Mark(c: Character, now: Time): Character {
    c.(selected := true, selectedAt := Some(now))
  }

  /** A character with its selection cleared (js/storage.js:239-240). */
  function Unmark(c: Character): Character {
    c.(selected := false, selectedAt := None)
  }

  function Unmarked(cs: seq<Character>): seq<Character> {
    seq(|cs|, k requires 0 <= k < |cs| => Unmark(cs[k]))
  }

  /**
   * After a keep-characters reset the roster is the same, in the same order,
   * and none of it counts as selected.
   */
  lemma {:induction false} UnmarkedIsFresh(cs: seq<Character>)
    ensures |Unmarked(cs)| == |cs|
    ensures forall k :: 0 <= k < |cs| ==>
      Unmarked(cs)[k].id == cs[k].id && Unmarked(cs)[k].name == cs[k].name
    ensures SelectedCharacters(Unmarked(cs)) == []
    ensures UnselectedCharacters(Unmarked(cs)) == Unmarked(cs)
    ensures GetStatistics(Unmarked(cs)).remaining == |cs|
  {
    if cs != [] {
      UnmarkedIsFresh(cs[1..]);
      assert Unmarked(cs)[1..] == Unmarked(cs[1..]);
    }
  }

  /**
   * The record after `selectCharacter(id)` (js/storage.js:202-226), or none
   * when the first character with that id is missing or already selected.
   */
  function SelectIn(d: StoreData, id: string, now: Time): Option<StoreData> {
    match FirstIndex(d.characters, id)
    case None => None
    case Some(i) =>
      if d.characters[i].selected then None
      else
        var c := Mark(d.characters[i], now);
        Some(d.(characters := d.characters[i := c],
                selectedCharacters := d.selectedCharacters + [Selection(c.id, c.name, now)]))
  }

  /** What localStorage holds after `selectCharacter(id)` at `now`. */
  function AfterSelect(saved: Option<StoreData>, id: string, now: Time): Option<StoreData> {
    match SelectIn(LoadOr(saved, now), id, now)
    case None => saved
    case Some(d) => Some(d.(updatedAt := now))
  }

  /** Marking an unselected character moves exactly one character from one filter to the other. */
  lemma {:induction false} MarkMovesOne(cs: seq<Character>, i: nat, now: Time)
    requires i < |cs| && !cs[i].selected
    ensures |UnselectedCharacters(cs[i := Mark(cs[i], now)])| == |UnselectedCharacters(cs)| - 1
    ensures |SelectedCharacters(cs[i := Mark(cs[i], now)])| == |SelectedCharacters(cs)| + 1
  {
    if i == 0 {
      assert cs[i := Mark(cs[i], now)][1..] == cs[1..];
    } else {
      MarkMovesOne(cs[1..], i - 1, now);
      assert cs[i := Mark(cs[i], now)][1..] == cs[1..][i - 1 := Mark(cs[i], now)];
    }
  }

  /**
   * A successful selection marks exactly the first character with the id,
   * leaves every other character as it was, logs one record and lowers the
   * remaining count by one.
   */
  lemma SelectMarksOne(d: StoreData, id: string, now: Time)
    requires SelectIn(d, id, now).Some?
    ensures var d' := SelectIn(d, id, now).value; var i := FirstIndex(d.characters, id).value;
      |d'.characters| == |d.characters| &&
      d'.characters[i] == Mark(d.characters[i], now) && !d.characters[i].selected &&
      (forall k :: 0 <= k < |d.characters| && k != i ==> d'.characters[k] == d.characters[k]) &&
      d'.selectedCharacters == d.selectedCharacters + [Selection(id, d.characters[i].name, now)] &&
      GetStatistics(d'.characters).remaining == GetStatistics(d.characters).remaining - 1
  {
    var i := FirstIndex(d.characters, id).value;
    MarkMovesOne(d.characters, i, now);
  }

  /** The record after `addCharacters(names)`: the trimmed names that are not blank, in order. */
  function NonBlankNames(names: seq<string>): (r: seq<string>)
    ensures |r| <= |names|
    ensures forall n :: n in r ==> n != []
  {
    if names == [] then []
    else
      var last := Trim(names[|names| - 1]);
      NonBlankNames(names[..|names| - 1]) + (if last != [] then [last] else [])
  }

  lemma NonBlankNamesStep(names: seq<string>, n: nat)
    requires n < |names|
    ensures NonBlankNames(names[..n + 1]) ==
      NonBlankNames(names[..n]) + (if Trim(names[n]) != [] then [Trim(names[n])] else [])
  {
    assert names[..n + 1][..n] == names[..n];
  }

  /** Some name of `names` is mapped to `x` by `f`. */
  ghost predicate MapsTo(names: seq<string>, x: string, f: string -> string) {
    exists k :: 0 <= k < |names| && f(names[k]) == x
  }

  lemma MapsToLast(names: seq<string>, x: string, f: string -> string)
    requires names != []
    ensures MapsTo(names, x, f) <==> MapsTo(names[..|names| - 1], x, f) || f(names[|names| - 1]) == x
  {
    var n := |names| - 1;
    if MapsTo(names[..n], x, f) {
      var k :| 0 <= k < n && f(names[..n][k]) == x;
      assert f(names[k]) == x;
    }
    if MapsTo(names, x, f) {
      var k :| 0 <= k < |names| && f(names[k]) == x;
      if k < n {
        assert f(names[..n][k]) == x;
      }
    }
  }

  /** A kept name is exactly the trimmed form of some given name that is not blank. */
  lemma {:induction false} NonBlankNamesMembers(names: seq<string>, x: string)
    ensures x in NonBlankNames(names) <==> x != [] && MapsTo(names, x, Trim)
  {
    if names != [] {
      NonBlankNamesMembers(names[..|names| - 1], x);
      MapsToLast(names, x, Trim);
    }
  }

  /** Names are kept one by one: the names of two lists together keep what each list keeps, in order. */
  lemma {:induction false} NonBlankNamesAppend(a: seq<string>, b: seq<string>)
    ensures NonBlankNames(a + b) == NonBlankNames(a) + NonBlankNames(b)
  {
    if b == [] {
      assert a + b == a;
    } else {
      var n := |b| - 1;
      assert (a + b)[..|a + b| - 1] == a + b[..n];
      assert (a + b)[|a + b| - 1] == b[n];
      NonBlankNamesAppend(a, b[..n]);
    }
  }

  /** The characters `addCharacters` creates for the kept names, the k-th with id `ids(k)` and seed `seeds(k)`. */
  function Created(kept: seq<string>, ids: nat -> string, seeds: nat -> string, now: Time): (r: seq<Character>)
    ensures |r| == |kept|
    ensures forall k :: 0 <= k < |kept| ==> r[k] == NewCharacter(ids(k), kept[k], seeds(k), now)
  {
    if kept == [] then []
    else
      var n := |kept| - 1;
      Created(kept[..n], ids, seeds, now) + [NewCharacter(ids(n), kept[n], seeds(n), now)]
  }

  lemma CreatedAppend(kept: seq<string>, name: string, ids: nat -> string, seeds: nat -> string, now: Time)
    ensures Created(kept + [name], ids, seeds, now) ==
      Created(kept, ids, seeds, now) + [NewCharacter(ids(|kept|), name, seeds(|kept|), now)]
  {
    assert (kept + [name])[..|kept|] == kept;
  }

  /** One more name either adds its character to what `addCharacters` has created, or nothing. */
  lemma AddStep(names: seq<string>, n: nat, ids: nat -> string, seeds: nat -> string, now: Time)
    requires n < |names|
    ensures var before := Created(NonBlankNames(names[..n]), ids, seeds, now);
      var name := Trim(names[n]);
      Created(NonBlankNames(names[..n + 1]), ids, seeds, now) ==
        if name != [] then before + [NewCharacter(ids(|before|), name, seeds(|before|), now)] else before
  {
    NonBlankNamesStep(names, n);
    CreatedAppend(NonBlankNames(names[..n]), Trim(names[n]), ids, seeds, now);
  }

  /** One `Object.assign(character, updates)` payload: the fields it sets. */
  datatype Patch = Patch(
    id: Option<string>,
    name: Option<string>,
    avatarSeed: Option<string>,
    selected: Option<bool>,
    selectedAt: Option<Option<Time>>,
    createdAt: Option<Time>)

  function Apply(c: Character, p: Patch): Character {
    Character(
      p.id.GetOr(c.id), p.name.GetOr(c.name), p.avatarSeed.GetOr(c.avatarSeed),
      p.selected.GetOr(c.selected), p.selectedAt.GetOr(c.selectedAt), p.createdAt.GetOr(c.createdAt))
  }

  /** A freshly created character (js/storage.js:68-75, 95-102). */
  function NewCharacter(id: string, name: string, seed: string, now: Time): Character {
    Character(id, name, seed, false, None, now)
  }

  class Store {
    /** The parsed localStorage entry 'kujikuji', if present. */
    var saved: Option<StoreData>

    constructor (initial: Option<StoreData>)
      ensures saved == initial
    {
      saved := initial;
    }

    /** `loadData()` at time `now`. */
    function Load(now: Time): StoreData
      reads this
    {
      LoadOr(saved, now)
    }

    /** `getAllCharacters()`: the stored characters (none when nothing is stored). */
    function Characters(): seq<Character>
      reads this
    {
      if saved.Some? then saved.value.characters else []
    }

    /** `saveData(data)` (js/storage.js:47-57): stamps `updatedAt` and stores the record. */
    method SaveData(data: StoreData, now: Time)
      modifies this
      ensures saved == Some(data.(updatedAt := now))
    {
      saved := Some(data.(updatedAt := now));
    }

    /** `clearAll` (js/storage.js:257-266): removes the entry; the next load yields the default record. */
    method ClearAll() returns (ok: bool)
      modifies this
      ensures ok && saved == None
      ensures forall now :: Load(now) == DefaultData(now)
    {
      saved := None;
      ok := true;
    }

    /**
     * `addCharacter(name, avatarSeed)` (js/storage.js:65-82): appends one
     * unselected character with the trimmed name, blank or not. `newId` and
     * `newSeed` are what generateId and generateSeed return; the seed is used
     * only when `avatarSeed` is null or empty.
     */
    method AddCharacter(name: string, avatarSeed: Option<string>, newId: string, newSeed: string, now: Time)
      returns (c: Character)
      modifies this
      ensures c == NewCharacter(newId, Trim(name),
        if avatarSeed.Some? && avatarSeed.value != [] then avatarSeed.value else newSeed, now)
      ensures var d := old(Load(now));
        saved == Some(d.(characters := d.characters + [c], updatedAt := now))
    {
      var data := Load(now);
      var seed := if avatarSeed.Some? && avatarSeed.value != [] then avatarSeed.value else newSeed;
      c := NewCharacter(newId, Trim(name), seed, now);
      data := data.(characters := data.characters + [c]);
      SaveData(data, now);
    }

    /**
     * `addCharacters(names)` (js/storage.js:89-111): one unselected character
     * per name that is not blank, with the trimmed name; the k-th character
     * created gets id `ids(k)` and avatar seed `seeds(k)`. Saves even when no
     * name qualifies.
     */
    method AddCharacters(names: seq<string>, ids: nat -> string, seeds: nat -> string, now: Time)
      returns (added: seq<Character>)
      modifies this
      ensures |added| == |NonBlankNames(names)|
      ensures forall k :: 0 <= k < |added| ==>
        added[k] == NewCharacter(ids(k), NonBlankNames(names)[k], seeds(k), now)
      ensures var d := old(Load(now));
        saved == Some(d.(characters := d.characters + added, updatedAt := now))
    {
      var data := Load(now);
      added := [];
      for n := 0 to |names|
        invariant added == Created(NonBlankNames(names[..n]), ids, seeds, now)
      {
        AddStep(names, n, ids, seeds, now);
        var name := Trim(names[n]);
        if name != [] {
          added := added + [NewCharacter(ids(|added|), name, seeds(|added|), now)];
        }
      }
      assert names[..|names|] == names;
      SaveData(data.(characters := data.characters + added), now);
    }

    /**
     * `updateCharacter(id, updates)` (js/storage.js:135-148): applies the
     * patch to the first character with the id and saves; returns null and
     * saves nothing when there is none.
     */
    method UpdateCharacter(id: string, patch: Patch, now: Time) returns (r: Option<Character>)
      modifies this
      ensures var d := old(Load(now));
        match FirstIndex(d.characters, id)
        case None => r == None && saved == old(saved)
        case Some(i) =>
          r == Some(Apply(d.characters[i], patch)) &&
          saved == Some(d.(characters := d.characters[i := Apply(d.characters[i], patch)], updatedAt := now))
    {
      var data := Load(now);
      var found := FirstIndex(data.characters, id);
      if found.Some? {
        var i := found.value;
        var c := Apply(data.characters[i], patch);
        data := data.(characters := data.characters[i := c]);
        SaveData(data, now);
        r := Some(c);
      } else {
        r := None;
      }
    }

    /**
     * `deleteCharacter(id)` (js/storage.js:155-168): removes the first
     * character with the id and saves; false and nothing saved when there is none.
     */
    method DeleteCharacter(id: string, now: Time) returns (ok: bool)
      modifies this
      ensures var d := old(Load(now));
        ok == FirstIndex(d.characters, id).Some? &&
        match FirstIndex(d.characters, id)
        case None => saved == old(saved)
        case Some(i) =>
          saved == Some(d.(characters := d.characters[..i] + d.characters[i + 1..], updatedAt := now))
    {
      var data := Load(now);
      var found := FirstIndex(data.characters, id);
      if found.Some? {
        var i := found.value;
        data := data.(characters := data.characters[..i] + data.characters[i + 1..]);
        SaveData(data, now);
        ok := true;
      } else {
        ok := false;
      }
    }

    /**
     * `selectCharacter(id)` (js/storage.js:202-226): marks the first
     * character with the id as selected at `now`, logs it and saves; null and
     * nothing saved when that character is missing or already selected.
     */
    method SelectCharacter(id: string, now: Time) returns (r: Option<Character>)
      modifies this
      ensures saved == AfterSelect(old(saved), id, now)
      ensures var d := old(Load(now));
        r.Some? == SelectIn(d, id, now).Some? &&
        (r.Some? ==> r.value == Mark(d.characters[FirstIndex(d.characters, id).value], now))
    {
      var data := Load(now);
      var found := FirstIndex(data.characters, id);
      if found.Some? && !data.characters[found.value].selected {
        var i := found.value;
        var c := Mark(data.characters[i], now);
        data := data.(characters := data.characters[i := c],
                      selectedCharacters := data.selectedCharacters + [Selection(c.id, c.name, c.selectedAt.value)]);
        SaveData(data, now);
        r := Some(c);
      } else {
        r := None;
      }
    }

    /**
     * `resetSelections(keepCharacters)` (js/storage.js:233-251): with
     * `keep`, clears every character's selection and the draw log and saves;
     * otherwise removes everything (`clearAll`).
     */
    method ResetSelections(keep: bool, now: Time) returns (ok: bool)
      modifies this
      ensures ok
      ensures keep ==> var d := old(Load(now));
        saved == Some(d.(characters := Unmarked(d.characters), selectedCharacters := [], updatedAt := now))
      ensures !keep ==> saved == None
    {
      if !keep {
        ok := ClearAll();
        return;
      }
      var data := Load(now);
      var cs := data.characters;
      for k := 0 to |cs|
        invariant |cs| == |data.characters|
        invariant forall j :: 0 <= j < k ==> cs[j] == Unmark(data.characters[j])
        invariant forall j :: k <= j < |cs| ==> cs[j] == data.characters[j]
      {
        cs := cs[k := Unmark(cs[k])];
      }
      assert cs == Unmarked(data.characters);
      data := data.(characters := cs, selectedCharacters := []);
      SaveData(data, now);
      ok := true;
    }
  }
}
