/** The modal picker: a filtered list of rows with a cursor that rests on selectable rows. */
module Picker {
  import opened Wrappers

  datatype ItemKind = Header | Selectable | Placeholder

  /** Items of one group are filtered together; a header's group is its own index. */
  datatype Item = Item(text: string, searchKey: string, kind: ItemKind, group: nat)

  type Lower = char -> char

  // ---------- Filtering ----------

  function ToLower(s: string, lower: Lower): (r: string)
    ensures |r| == |s| && forall i :: 0 <= i < |s| ==> r[i] == lower(s[i])
  {
    if s == "" then "" else [lower(s[0])] + ToLower(s[1..], lower)
  }

  predicate OccursAt(s: string, sub: string, i: nat) {
    i + |sub| <= |s| && s[i..i + |sub|] == sub
  }

  predicate Contains(s: string, sub: string) {
    exists i :: 0 <= i <= |s| && OccursAt(s, sub, i)
  }

  predicate Matches(item: Item, input: string, lower: Lower) {
    item.kind == Selectable && Contains(ToLower(item.searchKey, lower), ToLower(input, lower))
  }

  predicate IsNested(items: seq<Item>) {
    exists i :: 0 <= i < |items| && items[i].kind == Header
  }

  predicate GroupMatches(items: seq<Item>, group: nat, input: string, lower: Lower) {
    exists i :: 0 <= i < |items| && items[i].group == group && Matches(items[i], input, lower)
  }

  lemma {:induction false} GroupStep(items: seq<Item>, i: nat, input: string, lower: Lower)
    requires i < |items|
    ensures forall g :: GroupMatches(items[..i + 1], g, input, lower) <==>
                        GroupMatches(items[..i], g, input, lower) || (items[i].group == g && Matches(items[i], input, lower))
  {
    forall g ensures GroupMatches(items[..i + 1], g, input, lower) <==>
                     GroupMatches(items[..i], g, input, lower) || (items[i].group == g && Matches(items[i], input, lower)) {
      if GroupMatches(items[..i], g, input, lower) {
        var j :| 0 <= j < i && items[..i][j].group == g && Matches(items[..i][j], input, lower);
        assert items[..i + 1][j] == items[..i][j];
      }
      if items[i].group == g && Matches(items[i], input, lower) {
        assert items[..i + 1][i] == items[i];
      }
    }
  }

  /** Is the row shown under the filter text? */
  predicate Shown(items: seq<Item>, i: nat, input: string, lower: Lower)
    requires i < |items|
  {
    || input == ""
    || Matches(items[i], input, lower)
    || (items[i].kind == Header && GroupMatches(items, items[i].group, input, lower))
  }

  /** The shown rows among the first `n`, in order. */
  function ShownRows(items: seq<Item>, n: nat, input: string, lower: Lower): seq<nat>
    requires n <= |items|
  {
    if n == 0 then []
    else ShownRows(items, n - 1, input, lower) + (if Shown(items, n - 1, input, lower) then [n - 1] else [])
  }

  function Rows(items: seq<Item>, input: string, lower: Lower): seq<nat> {
    ShownRows(items, |items|, input, lower)
  }

  /** The rows are exactly the shown ones ... */
  lemma {:induction false} RowsAreShown(items: seq<Item>, n: nat, i: nat, input: string, lower: Lower)
    requires n <= |items|
    ensures i in ShownRows(items, n, input, lower) <==> i < n && Shown(items, i, input, lower)
  {
    if n > 0 {
      RowsAreShown(items, n - 1, i, input, lower);
    }
  }

  predicate Ascending(rows: seq<nat>, n: nat) {
    && (forall k :: 0 <= k < |rows| ==> rows[k] < n)
    && (forall j, k :: 0 <= j < k < |rows| ==> rows[j] < rows[k])
  }

  /** ... in list order. */
  lemma {:induction false} RowsAreOrdered(items: seq<Item>, n: nat, input: string, lower: Lower)
    requires n <= |items|
    ensures Ascending(ShownRows(items, n, input, lower), n)
  {
    if n > 0 {
      RowsAreOrdered(items, n - 1, input, lower);
    }
  }

  /** Under a filter a header is kept exactly when a selectable of its group matches; placeholders are hidden. */
  lemma {:induction false} HeaderKeptExactly(items: seq<Item>, i: nat, input: string, lower: Lower)
    requires i < |items| && input != ""
    ensures i in Rows(items, input, lower) <==>
            match items[i].kind
            case Header => GroupMatches(items, items[i].group, input, lower)
            case Placeholder => false
            case Selectable => Contains(ToLower(items[i].searchKey, lower), ToLower(input, lower))
  {
    RowsAreShown(items, |items|, i, input, lower);
  }

  lemma {:induction false} ContainsShorter(s: string, sub: string, longer: string)
    requires sub <= longer && Contains(s, longer)
    ensures Contains(s, sub)
  {
    var i :| 0 <= i <= |s| && OccursAt(s, longer, i);
    assert s[i..i + |sub|] == s[i..i + |longer|][..|sub|];
    assert OccursAt(s, sub, i);
  }

  lemma {:induction false} MatchesShorter(item: Item, input: string, longer: string, lower: Lower)
    requires input <= longer && Matches(item, longer, lower)
    ensures Matches(item, input, lower)
  {
    assert ToLower(input, lower) <= ToLower(longer, lower);
    ContainsShorter(ToLower(item.searchKey, lower), ToLower(input, lower), ToLower(longer, lower));
  }

  /** A longer filter text never brings a row back. */
  lemma {:induction false} LongerTextShowsLess(items: seq<Item>, i: nat, input: string, longer: string, lower: Lower)
    requires input <= longer && i in Rows(items, longer, lower)
    ensures i in Rows(items, input, lower)
  {
    RowsAreShown(items, |items|, i, longer, lower);
    RowsAreShown(items, |items|, i, input, lower);
    if Matches(items[i], longer, lower) {
      MatchesShorter(items[i], input, longer, lower);
    } else if longer != "" {
      var j :| 0 <= j < |items| && items[j].group == items[i].group && Matches(items[j], longer, lower);
      MatchesShorter(items[j], input, longer, lower);
    }
  }

  // ---------- The cursor ----------

  predicate SelectableAt(items: seq<Item>, rows: seq<nat>, c: int) {
    0 <= c < |rows| && rows[c] < |items| && items[rows[c]].kind == Selectable
  }

  ghost predicate HasSelectable(items: seq<Item>, rows: seq<nat>) {
    exists c :: SelectableAt(items, rows, c)
  }

  /** The first selectable position from `c` on. */
  function Forward(items: seq<Item>, rows: seq<nat>, c: nat): (r: Option<nat>)
    ensures r.Some? ==> c <= r.value && SelectableAt(items, rows, r.value)
                        && forall j :: c <= j < r.value ==> !SelectableAt(items, rows, j)
    ensures r.None? ==> forall j :: c <= j ==> !SelectableAt(items, rows, j)
    decreases |rows| - c
  {
    if c >= |rows| then None
    else if SelectableAt(items, rows, c) then Some(c)
    else Forward(items, rows, c + 1)
  }

  /** The last selectable position up to `c`. */
  function Backward(items: seq<Item>, rows: seq<nat>, c: nat): (r: Option<nat>)
    ensures r.Some? ==> r.value <= c && SelectableAt(items, rows, r.value)
                        && forall j :: r.value < j <= c ==> !SelectableAt(items, rows, j)
    ensures r.None? ==> forall j :: j <= c ==> !SelectableAt(items, rows, j)
  {
    if SelectableAt(items, rows, c) then Some(c)
    else if c == 0 then None
    else Backward(items, rows, c - 1)
  }

  function Snapped(items: seq<Item>, rows: seq<nat>, from: nat, forward: bool): nat {
    if rows == [] then 0
    else
      var start := if from < |rows| then from else |rows| - 1;
      var ahead, behind := Forward(items, rows, start), Backward(items, rows, start);
      if forward then (if ahead.Some? then ahead.value else behind.GetOr(0))
      else (if behind.Some? then behind.value else ahead.GetOr(0))
  }

  // ---------- Keys ----------

  datatype Key = Esc | Up | Down | Enter | Backspace | Char(c: char, ctrl: bool) | OtherKey

  datatype Outcome = Chosen(item: nat) | RemoveOwning(item: nat) | Cancel | Continue

  /** What the keys act on. */
  datatype View = View(items: seq<Item>, input: string, cursor: nat)

  function ViewRows(v: View, lower: Lower): seq<nat> {
    Rows(v.items, v.input, lower)
  }

  predicate OnSelectable(v: View, lower: Lower) {
    SelectableAt(v.items, ViewRows(v, lower), v.cursor)
  }

  /** The cursor is on a selectable row whenever the filtered list has one. */
  ghost predicate Valid(v: View, lower: Lower) {
    HasSelectable(v.items, ViewRows(v, lower)) ==> OnSelectable(v, lower)
  }

  function SnapView(v: View, from: nat, forward: bool, lower: Lower): View {
    v.(cursor := Snapped(v.items, ViewRows(v, lower), from, forward))
  }

  function Retyped(v: View, input: string, lower: Lower): View {
    SnapView(v.(input := input), 0, true, lower)
  }

  function Pressed(v: View, key: Key, lower: Lower): View {
    match key
    case Up => if v.cursor > 0 then SnapView(v, v.cursor - 1, false, lower) else v
    case Down => if v.cursor + 1 < |ViewRows(v, lower)| then SnapView(v, v.cursor + 1, true, lower) else v
    case Backspace => Retyped(v, if v.input == "" then "" else v.input[..|v.input| - 1], lower)
    case Char(c, ctrl) =>
      if c == 'u' && ctrl then Retyped(v, "", lower)
      else if !ctrl then Retyped(v, v.input + [c], lower)
      else v
    case _ => v
  }

  /** Enter and ctrl-x act on the row under the cursor if it is selectable. */
  function OutcomeOf(v: View, key: Key, lower: Lower): Outcome {
    if key == Esc then Cancel
    else if key == Enter && OnSelectable(v, lower) then Chosen(ViewRows(v, lower)[v.cursor])
    else if key == Char('x', true) && OnSelectable(v, lower) then RemoveOwning(ViewRows(v, lower)[v.cursor])
    else Continue
  }

  // ---------- The widget ----------

  class Picker {
    const lower: Lower
    var items: seq<Item>
    var input: string
    var cursor: nat
    var error: Option<string>
    var activeItem: Option<nat>

    constructor (lower: Lower)
      ensures this.lower == lower && TheView() == View([], "", 0) && error == None && activeItem == None
    {
      this.lower := lower;
      items, input, cursor, error, activeItem := [], "", 0, None, None;
    }

    function TheView(): View
      reads this
    {
      View(items, input, cursor)
    }

    method Filtered() returns (rows: seq<nat>)
      ensures rows == ViewRows(TheView(), lower)
    {
      if input == "" {
        rows := [];
        for i := 0 to |items|
          invariant rows == ShownRows(items, i, input, lower)
        {
          rows := rows + [i];
        }
      } else if !IsNested(items) {
        rows := [];
        for i := 0 to |items|
          invariant rows == ShownRows(items, i, input, lower)
        {
          if Matches(items[i], input, lower) {
            rows := rows + [i];
          }
        }
      } else {
        rows := FilteredGroups();
      }
    }

    /** A group survives exactly when one of its selectables matches. */
    method MatchingGroups() returns (groups: set<nat>)
      ensures forall g :: g in groups <==> GroupMatches(items, g, input, lower)
    {
      groups := {};
      for i := 0 to |items|
        invariant forall g :: g in groups <==> GroupMatches(items[..i], g, input, lower)
      {
        GroupStep(items, i, input, lower);
        if Matches(items[i], input, lower) {
          groups := groups + {items[i].group};
        }
      }
      assert items[..|items|] == items;
    }

    method FilteredGroups() returns (rows: seq<nat>)
      requires input != ""
      ensures rows == ViewRows(TheView(), lower)
    {
      var groups := MatchingGroups();
      rows := [];
      for i := 0 to |items|
        invariant rows == ShownRows(items, i, input, lower)
      {
        match items[i].kind {
          case Header =>
            if items[i].group in groups {
              rows := rows + [i];
            }
          case Selectable =>
            if Matches(items[i], input, lower) {
              rows := rows + [i];
            }
          case Placeholder =>
        }
      }
    }

    method TryForward(rows: seq<nat>, start: nat) returns (r: Option<nat>)
      ensures r == Forward(items, rows, start)
    {
      var i := start;
      while i < |rows|
        invariant Forward(items, rows, start) == Forward(items, rows, i)
        decreases |rows| - i
      {
        if SelectableAt(items, rows, i) {
          return Some(i);
        }
        i := i + 1;
      }
      r := None;
    }

    method TryBackward(rows: seq<nat>, start: nat) returns (r: Option<nat>)
      ensures r == Backward(items, rows, start)
    {
      var i: int := start;
      while i >= 0
        invariant -1 <= i <= start
        invariant Backward(items, rows, start) == if i >= 0 then Backward(items, rows, i) else None
        decreases i
      {
        if SelectableAt(items, rows, i) {
          return Some(i);
        }
        i := i - 1;
      }
      r := None;
    }

    /** To the nearest selectable in the direction, else in the other, else to the top. */
    method SnapCursorToSelectable(from: nat, forward: bool)
      modifies this`cursor
      ensures TheView() == SnapView(old(TheView()), from, forward, lower)
    {
      var rows := Filtered();
      if rows == [] {
        cursor := 0;
        return;
      }
      var start := if from < |rows| then from else |rows| - 1;
      var primary: Option<nat>;
      if forward {
        primary := TryForward(rows, start);
        if primary.None? {
          primary := TryBackward(rows, start);
        }
      } else {
        primary := TryBackward(rows, start);
        if primary.None? {
          primary := TryForward(rows, start);
        }
      }
      cursor := primary.GetOr(0);
    }

    /** Moves the cursor to an active row that is shown. */
    method SeekRow(active: Option<nat>) returns (found: bool)
      modifies this`cursor
      ensures found == (active.Some? && active.value in Rows(items, input, lower))
      ensures !found ==> cursor == old(cursor)
      ensures found ==> cursor < |Rows(items, input, lower)| && Rows(items, input, lower)[cursor] == active.value
    {
      if active.None? {
        return false;
      }
      var rows := Filtered();
      for pos := 0 to |rows|
        invariant active.value !in rows[..pos]
        invariant cursor == old(cursor)
      {
        if rows[pos] == active.value {
          cursor := pos;
          return true;
        }
      }
      found := false;
    }

    method WithItems(newItems: seq<Item>)
      modifies this
      ensures TheView() == SnapView(View(newItems, old(input), old(cursor)), 0, true, lower) && Valid(TheView(), lower)
      ensures error == old(error) && activeItem == old(activeItem)
    {
      items := newItems;
      SnapCursorToSelectable(0, true);
      SnappingIsValid(View(newItems, old(input), old(cursor)), 0, true, lower);
    }

    /** The active row is meant to be a selectable of the items. */
    method WithActive(active: Option<nat>)
      requires Valid(TheView(), lower)
      requires active.Some? && active.value < |items| ==> items[active.value].kind == Selectable
      modifies this
      ensures Valid(TheView(), lower) && items == old(items) && input == old(input) && activeItem == active
      ensures error == old(error)
    {
      activeItem := active;
      var found := SeekRow(active);
      if found {
        FoundIsValid(TheView(), active.value, lower);
      }
    }

    method Refresh(newItems: seq<Item>, active: Option<nat>)
      requires active.Some? && active.value < |newItems| ==> newItems[active.value].kind == Selectable
      modifies this
      ensures Valid(TheView(), lower) && items == newItems && input == old(input) && activeItem == active
      ensures error == old(error)
      ensures active.Some? && active.value in Rows(newItems, input, lower) ==>
                cursor < |Rows(newItems, input, lower)| && Rows(newItems, input, lower)[cursor] == active.value
    {
      items := newItems;
      activeItem := active;
      var found := SeekRow(active);
      if found {
        FoundIsValid(TheView(), active.value, lower);
        return;
      }
      SnappingIsValid(TheView(), 0, true, lower);
      SnapCursorToSelectable(0, true);
    }

    method Retype(newInput: string)
      modifies this`input, this`cursor
      ensures TheView() == Retyped(old(TheView()), newInput, lower)
    {
      input := newInput;
      SnapCursorToSelectable(0, true);
    }

    method HandleKey(key: Key) returns (outcome: Outcome)
      modifies this
      ensures TheView() == Pressed(old(TheView()), key, lower) && outcome == OutcomeOf(old(TheView()), key, lower)
      ensures error == None && activeItem == old(activeItem)
    {
      error := None;
      outcome := Continue;
      match key {
        case Esc =>
          outcome := Cancel;
        case Up =>
          if cursor > 0 {
            SnapCursorToSelectable(cursor - 1, false);
          }
        case Down =>
          var rows := Filtered();
          if |rows| > 0 && cursor + 1 < |rows| {
            SnapCursorToSelectable(cursor + 1, true);
          }
        case Enter =>
          var rows := Filtered();
          if SelectableAt(items, rows, cursor) {
            outcome := Chosen(rows[cursor]);
          }
        case Backspace =>
          Retype(if input == "" then "" else input[..|input| - 1]);
        case Char(c, ctrl) =>
          if c == 'u' && ctrl {
            Retype("");
          } else if c == 'x' && ctrl {
            var rows := Filtered();
            if SelectableAt(items, rows, cursor) {
              outcome := RemoveOwning(rows[cursor]);
            }
          } else if !ctrl {
            Retype(input + [c]);
          }
        case OtherKey =>
      }
    }
  }

  // ---------- The cursor stays on a selectable ----------

  lemma {:induction false} SnappingIsValid(v: View, from: nat, forward: bool, lower: Lower)
    ensures Valid(SnapView(v, from, forward, lower), lower)
  {
    var rows := ViewRows(v, lower);
    if c :| SelectableAt(v.items, rows, c) {
      var start := if from < |rows| then from else |rows| - 1;
      assert c >= start || c <= start;
    }
  }

  lemma {:induction false} FoundIsValid(v: View, active: nat, lower: Lower)
    requires v.cursor < |ViewRows(v, lower)| && ViewRows(v, lower)[v.cursor] == active
    requires active < |v.items| ==> v.items[active].kind == Selectable
    ensures Valid(v, lower)
  {
    RowsAreShown(v.items, |v.items|, active, v.input, lower);
    assert active in ViewRows(v, lower);
  }

  lemma {:induction false} PressingIsValid(v: View, key: Key, lower: Lower)
    requires Valid(v, lower)
    ensures Valid(Pressed(v, key, lower), lower)
  {
    match key {
      case Up => if v.cursor > 0 { SnappingIsValid(v, v.cursor - 1, false, lower); }
      case Down => SnappingIsValid(v, v.cursor + 1, true, lower);
      case Backspace => SnappingIsValid(v.(input := if v.input == "" then "" else v.input[..|v.input| - 1]), 0, true, lower);
      case Char(c, _) =>
        SnappingIsValid(v.(input := ""), 0, true, lower);
        SnappingIsValid(v.(input := v.input + [c]), 0, true, lower);
      case _ =>
    }
  }

  function PressedAll(v: View, keys: seq<Key>, lower: Lower): View
    decreases |keys|
  {
    if keys == [] then v else PressedAll(Pressed(v, keys[0], lower), keys[1..], lower)
  }

  /** Over every key sequence; and Enter then picks a selectable whenever there is one. */
  lemma {:induction false} AlwaysOnSelectable(v: View, keys: seq<Key>, lower: Lower)
    requires Valid(v, lower)
    ensures var after := PressedAll(v, keys, lower);
            && Valid(after, lower)
            && after.items == v.items
            && (HasSelectable(after.items, ViewRows(after, lower)) ==>
                  && OutcomeOf(after, Enter, lower).Chosen?
                  && OutcomeOf(after, Enter, lower).item < |v.items|
                  && v.items[OutcomeOf(after, Enter, lower).item].kind == Selectable)
    decreases |keys|
  {
    if keys != [] {
      PressingIsValid(v, keys[0], lower);
      AlwaysOnSelectable(Pressed(v, keys[0], lower), keys[1..], lower);
    }
  }

  // ---------- Walking through the list ----------

  /** Down goes to the next selectable, and stays on the last; Up goes back, and stays on the first. */
  lemma {:induction false} UpAndDownStep(v: View, lower: Lower)
    requires OnSelectable(v, lower)
    ensures var rows := ViewRows(v, lower);
            && Pressed(v, Down, lower) == v.(cursor := Forward(v.items, rows, v.cursor + 1).GetOr(v.cursor))
            && Pressed(v, Up, lower) ==
               v.(cursor := if v.cursor == 0 then 0 else Backward(v.items, rows, v.cursor - 1).GetOr(v.cursor))
  {
    var rows := ViewRows(v, lower);
    if v.cursor > 0 && Backward(v.items, rows, v.cursor - 1).None? {
      var ahead := Forward(v.items, rows, v.cursor - 1);
      assert SelectableAt(v.items, rows, v.cursor);
      assert ahead.Some? && ahead.value == v.cursor;
    }
    if Forward(v.items, rows, v.cursor + 1).None? && v.cursor + 1 < |rows| {
      var behind := Backward(v.items, rows, v.cursor + 1);
      assert !SelectableAt(v.items, rows, v.cursor + 1);
      assert behind == Some(v.cursor);
    }
  }

  /** Selectable positions among the first `n` rows, in order. */
  function Stops(items: seq<Item>, rows: seq<nat>, n: nat): seq<nat>
    requires n <= |rows|
  {
    if n == 0 then []
    else Stops(items, rows, n - 1) + (if SelectableAt(items, rows, n - 1) then [n - 1] else [])
  }

  lemma {:induction false} StopsAre(items: seq<Item>, rows: seq<nat>, n: nat)
    requires n <= |rows|
    ensures var stops := Stops(items, rows, n);
            && (forall k :: 0 <= k < |stops| ==> stops[k] < n && SelectableAt(items, rows, stops[k]))
            && (forall j, k :: 0 <= j < k < |stops| ==> stops[j] < stops[k])
            && (forall c :: 0 <= c < n && SelectableAt(items, rows, c) ==> c in stops)
  {
    if n > 0 {
      StopsAre(items, rows, n - 1);
    }
  }

  function Repeat(key: Key, n: nat): seq<Key> {
    if n == 0 then [] else Repeat(key, n - 1) + [key]
  }

  lemma {:induction false} PressedLast(v: View, keys: seq<Key>, key: Key, lower: Lower)
    ensures PressedAll(v, keys + [key], lower) == Pressed(PressedAll(v, keys, lower), key, lower)
    decreases |keys|
  {
    if keys == [] {
      assert keys + [key] == [key] && [key][1..] == [];
    } else {
      assert (keys + [key])[1..] == keys[1..] + [key];
      PressedLast(Pressed(v, keys[0], lower), keys[1..], key, lower);
    }
  }

  /** From the first selectable, `n` times Down reaches selectable number `n`, and stays on the last one. */
  lemma {:induction false} DownVisitsAll(v: View, n: nat, lower: Lower)
    requires var stops := Stops(v.items, ViewRows(v, lower), |ViewRows(v, lower)|); stops != [] && v.cursor == stops[0]
    ensures var stops := Stops(v.items, ViewRows(v, lower), |ViewRows(v, lower)|);
            PressedAll(v, Repeat(Down, n), lower) == v.(cursor := stops[if n < |stops| then n else |stops| - 1])
    decreases n
  {
    if n > 0 {
      var stops := Stops(v.items, ViewRows(v, lower), |ViewRows(v, lower)|);
      DownVisitsAll(v, n - 1, lower);
      PressedLast(v, Repeat(Down, n - 1), Down, lower);
      DownFromStop(v, if n - 1 < |stops| then n - 1 else |stops| - 1, lower);
    }
  }

  lemma {:induction false} DownFromStop(v: View, k: nat, lower: Lower)
    requires k < |Stops(v.items, ViewRows(v, lower), |ViewRows(v, lower)|)|
    ensures var stops := Stops(v.items, ViewRows(v, lower), |ViewRows(v, lower)|);
            Pressed(v.(cursor := stops[k]), Down, lower) ==
            v.(cursor := if k + 1 < |stops| then stops[k + 1] else stops[k])
  {
    var rows := ViewRows(v, lower);
    var stops := Stops(v.items, rows, |rows|);
    StopsAre(v.items, rows, |rows|);
    UpAndDownStep(v.(cursor := stops[k]), lower);
    NextStop(v.items, rows, k);
  }

  lemma {:induction false} NextStop(items: seq<Item>, rows: seq<nat>, k: nat)
    requires k < |Stops(items, rows, |rows|)|
    ensures var stops := Stops(items, rows, |rows|);
            Forward(items, rows, stops[k] + 1) == if k + 1 < |stops| then Some(stops[k + 1]) else None
  {
    var stops := Stops(items, rows, |rows|);
    StopsAre(items, rows, |rows|);
    var next := Forward(items, rows, stops[k] + 1);
    if next.Some? {
      assert next.value in stops;
      var j :| 0 <= j < |stops| && stops[j] == next.value;
      assert j > k;
    }
  }

  /** A fresh list starts at its first selectable. */
  lemma {:induction false} StartsAtFirst(v: View, lower: Lower)
    requires HasSelectable(v.items, ViewRows(v, lower))
    ensures var stops := Stops(v.items, ViewRows(v, lower), |ViewRows(v, lower)|);
            stops != [] && SnapView(v, 0, true, lower).cursor == stops[0]
  {
    var rows := ViewRows(v, lower);
    StopsAre(v.items, rows, |rows|);
    var c :| SelectableAt(v.items, rows, c);
    var stops := Stops(v.items, rows, |rows|);
    assert c in stops;
    var first := Forward(v.items, rows, 0).value;
    assert first in stops;
  }

  // ---------- Typing ----------

  function Typed(text: string): seq<Key> {
    if text == "" then [] else [Char(text[0], false)] + Typed(text[1..])
  }

  /** Typing a text appends it to the filter and changes no item. */
  lemma {:induction false} TypingSpells(v: View, text: string, lower: Lower)
    ensures PressedAll(v, Typed(text), lower).input == v.input + text
    ensures PressedAll(v, Typed(text), lower).items == v.items
    decreases |text|
  {
    if text == "" {
      assert v.input + "" == v.input;
    } else {
      var next := Pressed(v, Char(text[0], false), lower);
      CharIsAppended(v, text[0], lower);
      TypingSpells(next, text[1..], lower);
      TypedStep(v, text, lower);
      assert text == [text[0]] + text[1..];
      assert v.input + ([text[0]] + text[1..]) == (v.input + [text[0]]) + text[1..];
    }
  }

  lemma {:induction false} CharIsAppended(v: View, c: char, lower: Lower)
    ensures Pressed(v, Char(c, false), lower).input == v.input + [c]
    ensures Pressed(v, Char(c, false), lower).items == v.items
  {}

  lemma {:induction false} TypedStep(v: View, text: string, lower: Lower)
    requires text != ""
    ensures PressedAll(v, Typed(text), lower) == PressedAll(Pressed(v, Char(text[0], false), lower), Typed(text[1..]), lower)
  {
    assert Typed(text)[0] == Char(text[0], false) && Typed(text)[1..] == Typed(text[1..]);
  }

  /** The view with the filter text and the cursor on the first selectable row, or at the top when there is none. */
  ghost predicate StartsOver(v: View, items: seq<Item>, input: string, lower: Lower) {
    && v.items == items && v.input == input
    && (if HasSelectable(items, ViewRows(v, lower)) then
          OnSelectable(v, lower) && forall c :: 0 <= c < v.cursor ==> !SelectableAt(items, ViewRows(v, lower), c)
        else v.cursor == 0)
  }

  lemma {:induction false} RetypingStartsOver(v: View, input: string, lower: Lower)
    ensures StartsOver(Retyped(v, input, lower), v.items, input, lower)
  {
    var w := v.(input := input);
    var rows := ViewRows(w, lower);
    if rows != [] && Forward(v.items, rows, 0).None? {
      assert Backward(v.items, rows, 0).None?;
    }
  }

  /** Backspace takes back a character, ctrl-u all of them; every change of the text starts over at the first selectable row. */
  lemma {:induction false} EditingKeys(v: View, c: char, lower: Lower)
    ensures StartsOver(Pressed(v, Char(c, false), lower), v.items, v.input + [c], lower)
    ensures StartsOver(Pressed(Pressed(v, Char(c, false), lower), Backspace, lower), v.items, v.input, lower)
    ensures StartsOver(Pressed(v, Char('u', true), lower), v.items, "", lower)
    ensures v.input == "" ==> StartsOver(Pressed(v, Backspace, lower), v.items, "", lower)
  {
    var once := Pressed(v, Char(c, false), lower);
    RetypingStartsOver(v, v.input + [c], lower);
    RetypingStartsOver(once, v.input, lower);
    RetypingStartsOver(v, "", lower);
    assert once.input[..|once.input| - 1] == v.input;
  }

  /** All other keys leave the text and the items, and all but Up and Down leave the cursor too. */
  lemma {:induction false} OtherKeys(v: View, key: Key, lower: Lower)
    ensures Pressed(v, key, lower).items == v.items
    ensures key.Up? || key.Down? ==> Pressed(v, key, lower) == v.(cursor := Pressed(v, key, lower).cursor)
    ensures key.Esc? || key.Enter? || key.OtherKey? || (key.Char? && key.ctrl && key.c != 'u') ==> Pressed(v, key, lower) == v
  {}

  /** Only Esc cancels; only Enter chooses and only ctrl-x asks for removal, each the selectable item under the cursor. */
  lemma {:induction false} OutcomesExactly(v: View, key: Key, i: nat, lower: Lower)
    ensures OutcomeOf(v, key, lower) == Cancel <==> key == Esc
    ensures OutcomeOf(v, key, lower) == Chosen(i) <==> key == Enter && OnSelectable(v, lower) && ViewRows(v, lower)[v.cursor] == i
    ensures OutcomeOf(v, key, lower) == RemoveOwning(i) <==>
            key == Char('x', true) && OnSelectable(v, lower) && ViewRows(v, lower)[v.cursor] == i
  {}
}
