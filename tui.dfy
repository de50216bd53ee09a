/**
 * The multi-select prompt of tui.go: a cursor and a map of selected item
 * indices, driven by the key bytes read from the terminal one at a time.
 * Rendering and raw mode are not modelled; the bytes the terminal delivers
 * are an input sequence.
 */
module Tui {
  import opened FileTree

  const KeyQuit: byte := 113      // 'q'
  const KeyDown: byte := 106      // 'j'
  const KeyUp: byte := 107        // 'k'
  const KeySpace: byte := 32      // ' '
  const KeyAll: byte := 97        // 'a'
  const KeyReturn: byte := 13     // '\r'
  const KeyNewline: byte := 10    // '\n'
  const KeyEscape: byte := 27
  const KeyBracket: byte := 91    // '['
  const ArrowUp: byte := 65       // 'A'
  const ArrowDown: byte := 66     // 'B'

  /** The cursor and the `selected` map; a missing key reads as `false`, as in Go. */
  datatype SelectState = SelectState(cursor: int, selected: map<int, bool>)

  datatype Outcome = Confirmed(indices: seq<int>) | Canceled | Failed(message: string)

  const Initial: SelectState := SelectState(0, map[])

  function Get(m: map<int, bool>, i: int): bool {
    i in m && m[i]
  }

  /** The cursor is on an item and only item indices are keys of the map. */
  predicate ValidState(count: nat, s: SelectState) {
    0 <= s.cursor < count && forall i :: i in s.selected ==> 0 <= i < count
  }

  function MoveDown(s: SelectState, count: nat): SelectState {
    if s.cursor < count - 1 then s.(cursor := s.cursor + 1) else s
  }

  function MoveUp(s: SelectState): SelectState {
    if s.cursor > 0 then s.(cursor := s.cursor - 1) else s
  }

  function Toggle(s: SelectState): SelectState {
    s.(selected := s.selected[s.cursor := !Get(s.selected, s.cursor)])
  }

  /** Every item index mapped to `true`. */
  function AllTrue(count: nat): (m: map<int, bool>)
    ensures forall i :: i in m <==> 0 <= i < count
    ensures forall i :: i in m ==> m[i]
  {
    if count == 0 then map[] else AllTrue(count - 1)[count - 1 := true]
  }

  /**
   * The `a` key: clears the map when it has as many entries as there are
   * items (entries toggled back to `false` included), otherwise marks every
   * item.
   */
  function ToggleAll(s: SelectState, count: nat): SelectState {
    if |s.selected| == count then s.(selected := map[]) else s.(selected := s.selected + AllTrue(count))
  }

  lemma AllTrueStep(m: map<int, bool>, i: nat)
    ensures (m + AllTrue(i))[i := true] == m + AllTrue(i + 1)
  {
  }

  /** The selected indices below `count`, in increasing order. */
  function Chosen(selected: map<int, bool>, count: nat): seq<int> {
    if count == 0 then []
    else Chosen(selected, count - 1) + (if Get(selected, count - 1) then [count - 1] else [])
  }

  /**
   * The rest of the prompt from state `s` on the bytes `input`: `q` cancels,
   * Enter confirms, an escape reads up to two more bytes for an arrow key,
   * and running out of input is a read failure.
   */
  function Drive(count: nat, s: SelectState, input: seq<byte>): Outcome
    decreases |input|
  {
    if input == [] then Failed("failed to read input")
    else
      var b, rest := input[0], input[1..];
      if b == KeyQuit then Canceled
      else if b == KeyDown then Drive(count, MoveDown(s, count), rest)
      else if b == KeyUp then Drive(count, MoveUp(s), rest)
      else if b == KeySpace then Drive(count, Toggle(s), rest)
      else if b == KeyAll then Drive(count, ToggleAll(s, count), rest)
      else if b == KeyReturn || b == KeyNewline then Confirmed(Chosen(s.selected, count))
      else if b == KeyEscape then
        var n := if |rest| >= 2 then 2 else |rest|;
        Drive(count, Arrow(s, count, rest[..n]), rest[n..])
      else Drive(count, s, rest)
  }

  /** The effect of the bytes read after an escape. */
  function Arrow(s: SelectState, count: nat, seq2: seq<byte>): SelectState {
    if |seq2| == 2 && seq2[0] == KeyBracket then
      if seq2[1] == ArrowUp then MoveUp(s)
      else if seq2[1] == ArrowDown then MoveDown(s, count)
      else s
    else s
  }

  /** `selectIndicesTUI` as a function of the items and the bytes typed. */
  function SelectIndices(items: seq<string>, input: seq<byte>): Outcome {
    if |items| == 0 then Failed("no items to select") else Drive(|items|, Initial, input)
  }

  /** The `multiSelect` state; the title only matters for rendering. */
  class MultiSelect {
    const items: seq<string>
    var cursor: int
    var selected: map<int, bool>

    function State(): SelectState
      reads this
    {
      SelectState(cursor, selected)
    }

    constructor (items: seq<string>)
      ensures this.items == items && State() == Initial
    {
      this.items := items;
      cursor := 0;
      selected := map[];
    }

    method Down()
      modifies this
      ensures State() == MoveDown(old(State()), |items|)
    {
      if cursor < |items| - 1 {
        cursor := cursor + 1;
      }
    }

    method Up()
      modifies this
      ensures State() == MoveUp(old(State()))
    {
      if cursor > 0 {
        cursor := cursor - 1;
      }
    }

    method Space()
      modifies this
      ensures State() == Toggle(old(State()))
    {
      var current := cursor in selected && selected[cursor];
      selected := selected[cursor := !current];
    }

    method All()
      modifies this
      ensures State() == ToggleAll(old(State()), |items|)
    {
      if |selected| == |items| {
        selected := map[];
      } else {
        var m := selected;
        var i := 0;
        while i < |items|
          invariant 0 <= i <= |items|
          invariant m == old(selected) + AllTrue(i)
          invariant unchanged(this)
        {
          AllTrueStep(old(selected), i);
          m := m[i := true];
          i := i + 1;
        }
        selected := m;
      }
    }

    /** Enter: the selected item indices in increasing order. */
    method Confirm() returns (out: seq<int>)
      ensures out == Chosen(selected, |items|)
    {
      out := [];
      var i := 0;
      while i < |items|
        invariant 0 <= i <= |items|
        invariant out == Chosen(selected, i)
      {
        if i in selected && selected[i] {
          out := out + [i];
        }
        i := i + 1;
      }
    }
  }

  /** `selectIndicesTUI`: the read loop over the bytes typed. */
  method SelectIndicesTUI(items: seq<string>, input: seq<byte>) returns (outcome: Outcome)
    ensures outcome == SelectIndices(items, input)
  {
    if |items| == 0 {
      return Failed("no items to select");
    }
    var state := new MultiSelect(items);
    var pos := 0;
    while true
      invariant 0 <= pos <= |input|
      invariant fresh(state) && state.items == items
      invariant Drive(|items|, state.State(), input[pos..]) == SelectIndices(items, input)
      decreases |input| - pos
    {
      if pos == |input| {
        return Failed("failed to read input");
      }
      var b := input[pos];
      assert input[pos..][0] == b && input[pos..][1..] == input[pos + 1..];
      pos := pos + 1;
      if b == KeyQuit {
        return Canceled;
      } else if b == KeyDown {
        state.Down();
      } else if b == KeyUp {
        state.Up();
      } else if b == KeySpace {
        state.Space();
      } else if b == KeyAll {
        state.All();
      } else if b == KeyReturn || b == KeyNewline {
        var indices := state.Confirm();
        return Confirmed(indices);
      } else if b == KeyEscape {
        var n := if |input| - pos >= 2 then 2 else |input| - pos;
        var read := input[pos..pos + n];
        assert input[pos..][..n] == read && input[pos..][n..] == input[pos + n..];
        pos := pos + n;
        if n == 2 && read[0] == KeyBracket {
          if read[1] == ArrowUp {
            state.Up();
          } else if read[1] == ArrowDown {
            state.Down();
          }
        }
      }
    }
  }

  lemma {:induction false} AllTrueSize(count: nat)
    ensures |AllTrue(count)| == count
  {
    if count > 0 {
      AllTrueSize(count - 1);
      assert count - 1 !in AllTrue(count - 1);
    }
  }

  /** Every key keeps the cursor on an item and the map keyed by item indices. */
  lemma StepsKeepValid(count: nat, s: SelectState, seq2: seq<byte>)
    requires ValidState(count, s)
    ensures ValidState(count, MoveDown(s, count)) && ValidState(count, MoveUp(s))
    ensures ValidState(count, Toggle(s)) && ValidState(count, ToggleAll(s, count))
    ensures ValidState(count, Arrow(s, count, seq2))
  {
    MovesKeepValid(count, s);
    TogglesKeepValid(count, s);
  }

  lemma MovesKeepValid(count: nat, s: SelectState)
    requires ValidState(count, s)
    ensures ValidState(count, MoveDown(s, count)) && ValidState(count, MoveUp(s))
  {
  }

  lemma TogglesKeepValid(count: nat, s: SelectState)
    requires ValidState(count, s)
    ensures ValidState(count, Toggle(s)) && ValidState(count, ToggleAll(s, count))
  {
  }

  /** `j` then `k` comes back to the same item unless the cursor was already on the last one. */
  lemma DownThenUp(count: nat, s: SelectState)
    requires ValidState(count, s)
    ensures s.cursor < count - 1 ==> MoveUp(MoveDown(s, count)) == s
    ensures s.cursor == count - 1 ==> MoveDown(s, count) == s
  {
  }

  /** Space flips the item under the cursor and no other. */
  lemma ToggleFlipsCursorOnly(s: SelectState)
    ensures Toggle(s).cursor == s.cursor
    ensures Get(Toggle(s).selected, s.cursor) == !Get(s.selected, s.cursor)
    ensures forall i :: i != s.cursor ==> Get(Toggle(s).selected, i) == Get(s.selected, i)
  {
  }

  /** `a` marks every item unless the map already has an entry per item, in which case it clears it. */
  lemma ToggleAllMarksOrClears(count: nat, s: SelectState)
    ensures |s.selected| != count ==> forall i :: 0 <= i < count ==> Get(ToggleAll(s, count).selected, i)
    ensures |s.selected| == count ==> forall i :: !Get(ToggleAll(s, count).selected, i)
  {
  }

  /** With every item selected, `a` clears the selection. */
  lemma ToggleAllWhenAllSelected(count: nat, s: SelectState)
    requires ValidState(count, s)
    requires forall i :: 0 <= i < count ==> Get(s.selected, i)
    ensures ToggleAll(s, count).selected == map[]
  {
    AllTrueSize(count);
    forall i
      ensures i in s.selected.Keys <==> i in AllTrue(count).Keys
    {
      if 0 <= i < count {
        assert Get(s.selected, i);
      }
    }
    assert s.selected.Keys == AllTrue(count).Keys;
  }

  /**
   * The entry count, not the selection, decides what `a` does: with one item
   * selected and unselected again, `a` clears instead of selecting it, and
   * only a second `a` selects it.
   */
  lemma ToggleAllAfterUnselect()
    ensures Drive(1, Initial, [KeySpace, KeySpace, KeyAll, KeyReturn]) == Confirmed([])
    ensures Drive(1, Initial, [KeySpace, KeySpace, KeyAll, KeyAll, KeyReturn]) == Confirmed([0])
    ensures Drive(1, Initial, [KeyAll, KeyReturn]) == Confirmed([0])
  {
    UnselectedThenAll();
    AllSelectsSingle();
  }

  /** The state after selecting and unselecting the one item: its entry is kept, set to `false`. */
  lemma Unselected()
    ensures Toggle(Toggle(Initial)).selected == map[0 := false]
    ensures ToggleAll(Toggle(Toggle(Initial)), 1).selected == map[]
  {
    var unselected := Toggle(Toggle(Initial));
    assert unselected.selected == map[0 := false];
    assert |unselected.selected| == 1;
  }

  lemma UnselectedThenAll()
    ensures Drive(1, Initial, [KeySpace, KeySpace, KeyAll, KeyReturn]) == Confirmed([])
    ensures Drive(1, Initial, [KeySpace, KeySpace, KeyAll, KeyAll, KeyReturn]) == Confirmed([0])
  {
    Unselected();
    var unselected := Toggle(Toggle(Initial));
    var cleared := ToggleAll(unselected, 1);
    AllSelectsSingle();
    assert Drive(1, cleared, [KeyAll, KeyReturn]) == Confirmed([0]);
    assert Drive(1, unselected, [KeyAll, KeyAll, KeyReturn]) == Confirmed([0]);
    assert Drive(1, Toggle(Initial), [KeySpace, KeyAll, KeyAll, KeyReturn]) == Confirmed([0]);
    assert Drive(1, cleared, [KeyReturn]) == Confirmed([]);
    assert Drive(1, unselected, [KeyAll, KeyReturn]) == Confirmed([]);
    assert Drive(1, Toggle(Initial), [KeySpace, KeyAll, KeyReturn]) == Confirmed([]);
  }

  /** From an empty selection of one item, `a` then Enter confirms that item. */
  lemma AllSelectsSingle()
    ensures Drive(1, Initial, [KeyAll, KeyReturn]) == Confirmed([0])
    ensures forall s: SelectState :: s.selected == map[] ==> Drive(1, s, [KeyAll, KeyReturn]) == Confirmed([0])
  {
    AllTrueSize(1);
    forall s: SelectState | s.selected == map[]
      ensures Drive(1, s, [KeyAll, KeyReturn]) == Confirmed([0])
    {
      var marked := ToggleAll(s, 1);
      assert Get(marked.selected, 0);
      assert Chosen(marked.selected, 1) == [0];
      assert Drive(1, marked, [KeyReturn]) == Confirmed([0]);
    }
  }

  /** The confirmed indices are exactly the selected item indices, in increasing order. */
  lemma {:induction false} ChosenExactly(selected: map<int, bool>, count: nat)
    ensures forall i :: i in Chosen(selected, count) <==> 0 <= i < count && Get(selected, i)
    ensures forall j, k :: 0 <= j < k < |Chosen(selected, count)| ==> Chosen(selected, count)[j] < Chosen(selected, count)[k]
  {
    if count > 0 {
      ChosenExactly(selected, count - 1);
      var prev := Chosen(selected, count - 1);
      assert forall j :: 0 <= j < |prev| ==> prev[j] in prev;
    }
  }

  /** A confirmed prompt returns the selection held when Enter was read. */
  lemma {:induction false} ConfirmedSelection(count: nat, s: SelectState, input: seq<byte>) returns (t: SelectState)
    requires ValidState(count, s)
    requires Drive(count, s, input).Confirmed?
    ensures ValidState(count, t)
    ensures Drive(count, s, input) == Confirmed(Chosen(t.selected, count))
    decreases |input|
  {
    var b, rest := input[0], input[1..];
    StepsKeepValid(count, s, []);
    if b == KeyReturn || b == KeyNewline {
      t := s;
    } else if b == KeyDown {
      t := ConfirmedSelection(count, MoveDown(s, count), rest);
    } else if b == KeyUp {
      t := ConfirmedSelection(count, MoveUp(s), rest);
    } else if b == KeySpace {
      t := ConfirmedSelection(count, Toggle(s), rest);
    } else if b == KeyAll {
      t := ConfirmedSelection(count, ToggleAll(s, count), rest);
    } else if b == KeyEscape {
      var n := if |rest| >= 2 then 2 else |rest|;
      StepsKeepValid(count, s, rest[..n]);
      t := ConfirmedSelection(count, Arrow(s, count, rest[..n]), rest[n..]);
    } else {
      t := ConfirmedSelection(count, s, rest);
    }
  }

  /** Confirmed indices are distinct item positions in increasing order. */
  lemma ConfirmedIndicesAscend(items: seq<string>, input: seq<byte>)
    requires SelectIndices(items, input).Confirmed?
    ensures forall i :: i in SelectIndices(items, input).indices ==> 0 <= i < |items|
    ensures var r := SelectIndices(items, input).indices;
      forall j, k :: 0 <= j < k < |r| ==> r[j] < r[k]
  {
    var t := ConfirmedSelection(|items|, Initial, input);
    ChosenExactly(t.selected, |items|);
  }

  /** Input that never reaches `q`, Return or newline ends in a read failure. */
  lemma {:induction false} UndecidedInputFails(count: nat, s: SelectState, input: seq<byte>)
    requires forall i :: 0 <= i < |input| ==> input[i] != KeyQuit && input[i] != KeyReturn && input[i] != KeyNewline
    ensures Drive(count, s, input) == Failed("failed to read input")
    decreases |input|
  {
    if input != [] {
      var b, rest := input[0], input[1..];
      assert forall i :: 0 <= i < |rest| ==> rest[i] == input[i + 1];
      if b == KeyEscape {
        var n := if |rest| >= 2 then 2 else |rest|;
        assert forall i :: 0 <= i < |rest[n..]| ==> rest[n..][i] == input[i + n + 1];
        UndecidedInputFails(count, Arrow(s, count, rest[..n]), rest[n..]);
      } else if b == KeyDown {
        UndecidedInputFails(count, MoveDown(s, count), rest);
      } else if b == KeyUp {
        UndecidedInputFails(count, MoveUp(s), rest);
      } else if b == KeySpace {
        UndecidedInputFails(count, Toggle(s), rest);
      } else if b == KeyAll {
        UndecidedInputFails(count, ToggleAll(s, count), rest);
      } else {
        UndecidedInputFails(count, s, rest);
      }
    }
  }

  /** A byte that is no key leaves the prompt as it was. */
  lemma IgnoredByte(count: nat, s: SelectState, b: byte, rest: seq<byte>)
    requires b !in {KeyQuit, KeyDown, KeyUp, KeySpace, KeyAll, KeyReturn, KeyNewline, KeyEscape}
    ensures Drive(count, s, [b] + rest) == Drive(count, s, rest)
  {
    assert ([b] + rest)[1..] == rest;
  }
}
