/**
  The keyed list model behind the lists on screen (src/KeyedListModel.h): its
  rows are replaced by difference, and a view follows by the notifications.
  */
module KeyedLists {
  import opened Options

  /** A byte string that identifies a row. */
  type Key = string

  /** What a view is told. The source announces the index ranges; an inserted
      row's key is what the view then reads from the model. */
  datatype Note =
    | Removed(first: nat, last: nat)
    | Moved(from: nat, to: nat)
    | Inserted(at: nat, key: Key)

  function Keys<Row>(rows: seq<Row>, keyOf: Row -> Key): (r: seq<Key>)
    ensures |r| == |rows|
  {
    seq(|rows|, (i: nat) requires i < |rows| => keyOf(rows[i]))
  }

  predicate Distinct(keys: seq<Key>) {
    forall i, j :: 0 <= i < j < |keys| ==> keys[i] != keys[j]
  }

  // ------------------------------------------------------------------------
  // The view

  /** A notification only makes sense to a view it fits. */
  predicate Fits(view: seq<Key>, note: Note) {
    match note
    case Removed(first, last) => first <= last < |view|
    case Moved(from, to) => to < from < |view|
    case Inserted(at, _) => at <= |view|
  }

  function Follow(view: seq<Key>, note: Note): seq<Key>
    requires Fits(view, note)
  {
    match note
    case Removed(first, last) => view[..first] + view[last + 1..]
    case Moved(from, to) => view[..to] + [view[from]] + view[to..from] + view[from + 1..]
    case Inserted(at, key) => view[..at] + [key] + view[at..]
  }

  /** A view that follows all of `notes`, or None once one does not fit. */
  function Replay(view: seq<Key>, notes: seq<Note>): Option<seq<Key>> {
    if notes == [] then Some(view)
    else
      match Replay(view, notes[..|notes| - 1])
      case None => None
      case Some(seen) =>
        var note := notes[|notes| - 1];
        if Fits(seen, note) then Some(Follow(seen, note)) else None
  }

  /** `note` neither takes away nor puts in a row whose key is in `kept`. */
  predicate Harmless(view: seq<Key>, note: Note, kept: set<Key>) {
    match note
    case Removed(first, last) => forall k :: first <= k <= last && k < |view| ==> view[k] !in kept
    case Moved(_, _) => true
    case Inserted(_, key) => key !in kept
  }

  /** No notification ever removes or inserts a row of `kept`. */
  predicate Spares(view: seq<Key>, notes: seq<Note>, kept: set<Key>) {
    notes == [] ||
    (var before := notes[..|notes| - 1];
     && Spares(view, before, kept)
     && (match Replay(view, before)
         case None => true
         case Some(seen) => Harmless(seen, notes[|notes| - 1], kept)))
  }

  /** A removal of a whole run: the rows on either side of it are wanted. */
  predicate WholeRun(view: seq<Key>, note: Note, wanted: set<Key>) {
    && note.Removed? && note.first <= note.last < |view|
    && (forall k :: note.first <= k <= note.last ==> view[k] !in wanted)
    && (note.first > 0 ==> view[note.first - 1] in wanted)
    && (note.last + 1 < |view| ==> view[note.last + 1] in wanted)
  }

  /** Every notification removes a whole run. */
  predicate WholeRuns(view: seq<Key>, notes: seq<Note>, wanted: set<Key>) {
    notes == [] ||
    (var before := notes[..|notes| - 1];
     && WholeRuns(view, before, wanted)
     && Replay(view, before).Some?
     && WholeRun(Replay(view, before).value, notes[|notes| - 1], wanted))
  }

  predicate Moveless(notes: seq<Note>) {
    forall i :: 0 <= i < |notes| ==> !notes[i].Moved?
  }

  /** One more notification. */
  lemma Notified(view: seq<Key>, notes: seq<Note>, note: Note, seen: seq<Key>)
    requires Replay(view, notes) == Some(seen) && Fits(seen, note)
    ensures Replay(view, notes + [note]) == Some(Follow(seen, note))
    ensures forall kept :: Spares(view, notes, kept) && Harmless(seen, note, kept) ==> Spares(view, notes + [note], kept)
    ensures Moveless(notes) && !note.Moved? ==> Moveless(notes + [note])
    ensures forall w :: WholeRuns(view, notes, w) && WholeRun(seen, note, w) ==> WholeRuns(view, notes + [note], w)
  {
    assert (notes + [note])[..|notes + [note]| - 1] == notes;
  }

  // ------------------------------------------------------------------------
  // Filtering

  /** The keys of `s` that are in `wanted`, in order. */
  function Only(s: seq<Key>, wanted: set<Key>): (r: seq<Key>)
    ensures forall k :: k in r <==> k in s && k in wanted
  {
    if s == [] then [] else if s[0] in wanted then [s[0]] + Only(s[1..], wanted) else Only(s[1..], wanted)
  }

  lemma {:induction false} OnlyConcat(a: seq<Key>, b: seq<Key>, wanted: set<Key>)
    ensures Only(a + b, wanted) == Only(a, wanted) + Only(b, wanted)
  {
    if a == [] {
      assert a + b == b;
    } else {
      assert (a + b)[1..] == a[1..] + b;
      OnlyConcat(a[1..], b, wanted);
    }
  }

  lemma {:induction false} OnlyNone(s: seq<Key>, wanted: set<Key>)
    requires forall k :: k in s ==> k !in wanted
    ensures Only(s, wanted) == []
  {
    if s != [] {
      OnlyNone(s[1..], wanted);
    }
  }

  lemma {:induction false} OnlyDistinct(s: seq<Key>, wanted: set<Key>)
    requires Distinct(s)
    ensures Distinct(Only(s, wanted))
  {
    if s != [] {
      OnlyDistinct(s[1..], wanted);
      assert s[0] !in s[1..];
    }
  }

  /** `s` without the first occurrence of `key`. */
  function Without(s: seq<Key>, key: Key): seq<Key> {
    if s == [] then [] else if s[0] == key then s[1..] else [s[0]] + Without(s[1..], key)
  }

  lemma {:induction false} WithoutAt(s: seq<Key>, key: Key, at: nat)
    requires at < |s| && s[at] == key && key !in s[..at]
    ensures Without(s, key) == s[..at] + s[at + 1..]
  {
    if at > 0 {
      assert s[0] == s[..at][0];
      assert s[1..][..at - 1] == s[..at][1..];
      WithoutAt(s[1..], key, at - 1);
    }
  }

  lemma {:induction false} WithoutAbsent(s: seq<Key>, key: Key)
    requires key !in s
    ensures Without(s, key) == s
  {
    if s != [] {
      WithoutAbsent(s[1..], key);
    }
  }

  lemma {:induction false} WithoutDistinct(s: seq<Key>, key: Key)
    requires Distinct(s)
    ensures Distinct(Without(s, key))
    ensures forall k :: k in Without(s, key) <==> k in s && k != key
  {
    if s != [] {
      WithoutDistinct(s[1..], key);
      assert s[0] !in s[1..];
    }
  }

  // ------------------------------------------------------------------------
  // What is left below the rows already placed

  /** With unique keys, `rest` is exactly the kept rows still to be placed. */
  ghost predicate StillToPlace(rest: seq<Key>, ahead: seq<Key>, kept: set<Key>) {
    && Distinct(rest)
    && forall k :: k in rest <==> k in ahead && k in kept
  }

  lemma PlacedOne(rest: seq<Key>, ahead: seq<Key>, kept: set<Key>)
    requires ahead != [] && Distinct(ahead) && StillToPlace(rest, ahead, kept)
    ensures StillToPlace(Without(rest, ahead[0]), ahead[1..], kept)
  {
    WithoutDistinct(rest, ahead[0]);
    assert ahead == [ahead[0]] + ahead[1..];
  }

  /** When the kept rows have not changed order, the one wanted next is always
      in place already, if it is there at all. */
  lemma InOrder(rest: seq<Key>, ahead: seq<Key>, had: set<Key>)
    requires ahead != [] && rest == Only(ahead, had)
    ensures ahead[0] in had ==> rest != [] && rest[0] == ahead[0]
    ensures ahead[0] in rest ==> rest[0] == ahead[0]
    ensures Without(rest, ahead[0]) == Only(ahead[1..], had)
  {
    if ahead[0] !in had {
      WithoutAbsent(rest, ahead[0]);
    }
  }

  // ------------------------------------------------------------------------
  // Order

  /** Rows that were only removed and inserted around the kept ones leave the
      kept ones in the order they had. */
  lemma {:induction false} NoMovesKeepOrder(view: seq<Key>, notes: seq<Note>, kept: set<Key>)
    requires Replay(view, notes).Some? && Spares(view, notes, kept) && Moveless(notes)
    ensures Only(Replay(view, notes).value, kept) == Only(view, kept)
  {
    if notes != [] {
      var before := notes[..|notes| - 1];
      NoMovesKeepOrder(view, before, kept);
      HarmlessKeepsOrder(Replay(view, before).value, notes[|notes| - 1], kept);
    }
  }

  lemma HarmlessKeepsOrder(view: seq<Key>, note: Note, kept: set<Key>)
    requires Fits(view, note) && Harmless(view, note, kept) && !note.Moved?
    ensures Only(Follow(view, note), kept) == Only(view, kept)
  {
    match note
    case Removed(first, last) =>
      var gone := view[first..last + 1];
      assert view == view[..first] + gone + view[last + 1..];
      OnlyConcat(view[..first] + gone, view[last + 1..], kept);
      OnlyConcat(view[..first], gone, kept);
      OnlyNone(gone, kept);
      OnlyConcat(view[..first], view[last + 1..], kept);
    case Inserted(at, key) =>
      assert view == view[..at] + view[at..];
      OnlyConcat(view[..at], view[at..], kept);
      OnlyConcat(view[..at] + [key], view[at..], kept);
      OnlyConcat(view[..at], [key], kept);
      OnlyNone([key], kept);
  }

  function SetOf(s: seq<Key>): set<Key> {
    set k | k in s
  }

  /** The keys of both lists. */
  function Common(a: seq<Key>, b: seq<Key>): set<Key> {
    SetOf(a) * SetOf(b)
  }

  /**
    With unique keys, a replacement announces a move exactly when the rows the
    two lists share have changed their relative order.
    */
  lemma MovesOnlyWhenReordered(was: seq<Key>, now: seq<Key>, notes: seq<Note>)
    requires Replaced(was, now, notes)
    requires Distinct(was) && Distinct(now)
    ensures Moveless(notes) <==> Only(was, Common(was, now)) == Only(now, Common(was, now))
  {
    if Moveless(notes) {
      NoMovesKeepOrder(was, notes, Common(was, now));
    }
    OnlyCommon(was, now, SetOf(now));
    OnlyCommon(now, was, SetOf(was));
  }

  lemma OnlyCommon(s: seq<Key>, t: seq<Key>, others: set<Key>)
    requires others == SetOf(t)
    ensures Only(s, others) == Only(s, Common(s, t)) == Only(s, Common(t, s))
  {
    OnlySame(s, others, Common(s, t));
    OnlySame(s, others, Common(t, s));
  }

  lemma {:induction false} OnlySame(s: seq<Key>, a: set<Key>, b: set<Key>)
    requires forall k :: k in s ==> (k in a <==> k in b)
    ensures Only(s, a) == Only(s, b)
  {
    if s != [] {
      OnlySame(s[1..], a, b);
    }
  }

  /** What replacing the keys `was` by `now` announces. */
  predicate Replaced(was: seq<Key>, now: seq<Key>, notes: seq<Note>) {
    // a view that follows ends with the new rows
    && Replay(was, notes) == Some(now)
    // no row in both lists is ever taken away or put in
    && (Distinct(was) && Distinct(now) ==> Spares(was, notes, Common(was, now)))
    // and none is moved unless the kept rows changed order
    && (Only(was, SetOf(now)) == Only(now, SetOf(was)) ==> Moveless(notes))
  }

  /** A view that followed one replacement is ready for the next. */
  lemma {:induction false} ReplayMore(view: seq<Key>, a: seq<Note>, b: seq<Note>)
    requires Replay(view, a).Some?
    ensures Replay(view, a + b) == Replay(Replay(view, a).value, b)
  {
    if b == [] {
      assert a + b == a;
    } else {
      assert (a + b)[..|a + b| - 1] == a + b[..|b| - 1];
      ReplayMore(view, a, b[..|b| - 1]);
    }
  }

  // ------------------------------------------------------------------------
  // The model

  class KeyedListModel<Row> {
    var rows: seq<Row>

    /** The start of the run of unwanted rows that ends with row `i`. */
    method RunStart(i: nat, wanted: set<Key>, keyOf: Row -> Key) returns (first: int)
      requires i < |rows| && keyOf(rows[i]) !in wanted
      ensures 0 <= first <= i
      ensures forall k :: first <= k <= i ==> Keys(rows, keyOf)[k] !in wanted
      ensures first > 0 ==> Keys(rows, keyOf)[first - 1] in wanted
    {
      first := i;
      while first > 0 && keyOf(rows[first - 1]) !in wanted
        invariant 0 <= first <= i
        invariant forall k :: first <= k <= i ==> keyOf(rows[k]) !in wanted
      {
        first := first - 1;
      }
    }

    /** Rows that are gone, from the back, each run of them in one step. */
    method RemoveGone(wanted: set<Key>, keyOf: Row -> Key) returns (notes: seq<Note>)
      modifies this
      ensures Keys(rows, keyOf) == Only(old(Keys(rows, keyOf)), wanted)
      ensures Replay(old(Keys(rows, keyOf)), notes) == Some(Keys(rows, keyOf))
      ensures Spares(old(Keys(rows, keyOf)), notes, wanted) && Moveless(notes)
      ensures WholeRuns(old(Keys(rows, keyOf)), notes, wanted)
    {
      hide WholeRuns, WholeRun, Replay, Spares, Moveless, Only, Follow, Fits, Harmless;
      ghost var was := Keys(rows, keyOf);
      notes := [];
      NothingYet(was, wanted);
      var i: int := |rows| - 1;
      while i >= 0
        invariant -1 <= i < |rows| && i < |was|
        invariant Keys(rows, keyOf) == was[..i + 1] + Only(was[i + 1..], wanted)
        invariant Replay(was, notes) == Some(Keys(rows, keyOf))
        invariant Spares(was, notes, wanted) && Moveless(notes) && WholeRuns(was, notes, wanted)
      {
        ghost var seen := Keys(rows, keyOf);
        assert keyOf(rows[i]) == seen[i] == was[i];
        if keyOf(rows[i]) in wanted {
          StaysWanted(was, seen, wanted, i);
          i := i - 1;
        } else {
          var first := RunStart(i, wanted, keyOf);
          GoneRun(was, seen, wanted, first, i);
          GoneWhole(was, seen, wanted, first, i);
          Notified(was, notes, Removed(first, i), seen);
          KeysCut(rows, first, i, keyOf);
          rows := rows[..first] + rows[i + 1..];
          notes := notes + [Removed(first, i)];
          i := first - 1;
        }
      }
      assert was[0..] == was;
    }

    /** The first row from `start` on with this key, or None. */
    method FindRow(key: Key, start: nat, keyOf: Row -> Key) returns (at: Option<nat>)
      requires start <= |rows|
      ensures at.None? ==> key !in Keys(rows[start..], keyOf)
      ensures at.Some? ==> start <= at.value < |rows| && keyOf(rows[at.value]) == key
      ensures at.Some? ==> key !in Keys(rows[start..at.value], keyOf)
    {
      at := None;
      for j := start to |rows|
        invariant key !in Keys(rows[start..j], keyOf)
      {
        if keyOf(rows[j]) == key {
          return Some(j);
        }
        assert Keys(rows[start..j + 1], keyOf) == Keys(rows[start..j], keyOf) + [keyOf(rows[j])];
      }
      assert rows[start..|rows|] == rows[start..];
    }

    /** Brings `row` to position `i`: it is there, further down, or new. */
    method PlaceRow(row: Row, i: nat, keyOf: Row -> Key) returns (note: Option<Note>)
      requires i <= |rows|
      modifies this
      ensures |rows| > i && rows[..i + 1] == old(rows[..i]) + [row]
      ensures Keys(rows[i + 1..], keyOf) == Without(old(Keys(rows[i..], keyOf)), keyOf(row))
      ensures note.None? ==> Keys(rows, keyOf) == old(Keys(rows, keyOf))
      ensures note.Some? ==> Fits(old(Keys(rows, keyOf)), note.value)
      ensures note.Some? ==> Keys(rows, keyOf) == Follow(old(Keys(rows, keyOf)), note.value)
      ensures note.Some? ==> !note.value.Removed?
      // Only a key not found below is announced as new.
      ensures note.Some? && note.value.Inserted? ==> note.value.key == keyOf(row) && keyOf(row) !in old(Keys(rows[i..], keyOf))
      // A row already in place stays there without a word.
      ensures note.Some? && note.value.Moved? ==>
                var rest := old(Keys(rows[i..], keyOf)); keyOf(row) in rest && rest[0] != keyOf(row)
    {
      hide Follow, Fits, Without, Keys;
      var key := keyOf(row);
      if i < |rows| && keyOf(rows[i]) == key {
        RowKept(rows, row, i, keyOf);
        rows := rows[i := row];
        return None;
      }
      var start := if i < |rows| then i + 1 else i;
      var from := FindRow(key, start, keyOf);
      BelowPlace(rows, i, start, from, key, keyOf);
      match from
      case Some(at) =>
        RowMoved(rows, row, i, at, keyOf);
        rows := rows[..i] + [row] + rows[i..at] + rows[at + 1..];
        note := Some(Moved(at, i));
      case None =>
        RowInserted(rows, row, i, keyOf);
        rows := rows[..i] + [row] + rows[i..];
        note := Some(Inserted(i, key));
    }

    /**
      Brings the rows in line with `next`. Whatever the two lists, duplicate
      keys included, the rows end as `next` and a view that follows the
      notifications reaches the same keys.
      */
    method ReplaceRows(next: seq<Row>, keyOf: Row -> Key) returns (notes: seq<Note>)
      modifies this
      ensures rows == next
      ensures Replaced(old(Keys(rows, keyOf)), Keys(next, keyOf), notes)
    {
      hide Replay, Spares, Only, Follow, Fits, Keys, OnCourse, Replaced, Without;
      ghost var was, now := Keys(rows, keyOf), Keys(next, keyOf);
      var wanted := Wanted(next, keyOf);
      notes := RemoveGone(wanted, keyOf);
      StartPlacing(was, now, notes);
      assert rows[0..] == rows && now[0..] == now;
      for i := 0 to |next|
        invariant i <= |rows| && rows[..i] == next[..i]
        invariant Replay(was, notes) == Some(Keys(rows, keyOf))
        invariant OnCourse(was, now, notes, Keys(rows[i..], keyOf), i)
      {
        ghost var seen, rest := Keys(rows, keyOf), Keys(rows[i..], keyOf);
        var note := PlaceRow(next[i], i, keyOf);
        KeyAt(next, keyOf, i);
        StayOnCourse(was, now, notes, note, seen, rest, i);
        if note.Some? {
          notes := notes + [note.value];
        }
        assert next[..i + 1] == next[..i] + [next[i]];
      }
      assert next[..|next|] == next;
      Arrived(was, notes, rows, next, keyOf);
      if |rows| > |next| {
        notes := notes + [Removed(|next|, |rows| - 1)];
        rows := rows[..|next|];
      }
    }
  }

  /** The keys that are wanted. */
  method Wanted<Row>(next: seq<Row>, keyOf: Row -> Key) returns (wanted: set<Key>)
    ensures wanted == SetOf(Keys(next, keyOf))
  {
    wanted := {};
    for i := 0 to |next|
      invariant wanted == SetOf(Keys(next, keyOf)[..i])
    {
      assert Keys(next, keyOf)[..i + 1] == Keys(next, keyOf)[..i] + [keyOf(next[i])];
      wanted := wanted + {keyOf(next[i])};
    }
    assert Keys(next, keyOf)[..|next|] == Keys(next, keyOf);
  }

  lemma NothingYet(was: seq<Key>, wanted: set<Key>)
    ensures Replay(was, []) == Some(was) && Spares(was, [], wanted) && Moveless([]) && WholeRuns(was, [], wanted)
    ensures was == was[..|was|] + Only(was[|was|..], wanted)
  {}

  lemma StaysWanted(was: seq<Key>, seen: seq<Key>, wanted: set<Key>, i: nat)
    requires i < |was| && seen == was[..i + 1] + Only(was[i + 1..], wanted) && was[i] in wanted
    ensures seen == was[..i] + Only(was[i..], wanted)
  {
    assert was[i..][1..] == was[i + 1..];
  }

  lemma KeysCut<Row>(rows: seq<Row>, first: nat, last: nat, keyOf: Row -> Key)
    requires first <= last < |rows|
    ensures Keys(rows[..first] + rows[last + 1..], keyOf) == Follow(Keys(rows, keyOf), Removed(first, last))
  {}

  lemma RowKept<Row>(rows: seq<Row>, row: Row, i: nat, keyOf: Row -> Key)
    requires i < |rows| && keyOf(rows[i]) == keyOf(row)
    ensures Keys(rows[i := row], keyOf) == Keys(rows, keyOf)
    ensures Keys(rows[i := row][i + 1..], keyOf) == Without(Keys(rows[i..], keyOf), keyOf(row))
  {
    WithoutAt(Keys(rows[i..], keyOf), keyOf(row), 0);
  }

  lemma RowMoved<Row>(rows: seq<Row>, row: Row, i: nat, at: nat, keyOf: Row -> Key)
    requires i < at < |rows| && keyOf(rows[at]) == keyOf(row)
    requires keyOf(row) !in Keys(rows[i..], keyOf)[..at - i]
    ensures var after := rows[..i] + [row] + rows[i..at] + rows[at + 1..];
            && after[..i + 1] == rows[..i] + [row]
            && Fits(Keys(rows, keyOf), Moved(at, i))
            && Keys(after, keyOf) == Follow(Keys(rows, keyOf), Moved(at, i))
            && Keys(after[i + 1..], keyOf) == Without(Keys(rows[i..], keyOf), keyOf(row))
    ensures keyOf(row) in Keys(rows[i..], keyOf) && Keys(rows[i..], keyOf)[0] != keyOf(row)
  {
    hide Without, Keys;
    var rest := Keys(rows[i..], keyOf);
    KeyAt(rows[i..], keyOf, at - i);
    assert rest[..at - i][0] == rest[0];
    WithoutAt(rest, keyOf(row), at - i);
    RowMovedKeys(rows, row, i, at, keyOf);
    var after := rows[..i] + [row] + rows[i..at] + rows[at + 1..];
    assert after[i + 1..] == rows[i..at] + rows[at + 1..];
    RestCut(rows[i..], at - i, keyOf);
    assert rows[i..][..at - i] == rows[i..at] && rows[i..][at - i + 1..] == rows[at + 1..];
  }

  lemma RestCut<Row>(rest: seq<Row>, at: nat, keyOf: Row -> Key)
    requires at < |rest|
    ensures Keys(rest[..at] + rest[at + 1..], keyOf) == Keys(rest, keyOf)[..at] + Keys(rest, keyOf)[at + 1..]
  {}

  lemma RowMovedKeys<Row>(rows: seq<Row>, row: Row, i: nat, at: nat, keyOf: Row -> Key)
    requires i < at < |rows| && keyOf(rows[at]) == keyOf(row)
    ensures Keys(rows[..i] + [row] + rows[i..at] + rows[at + 1..], keyOf) == Follow(Keys(rows, keyOf), Moved(at, i))
  {
    hide Keys;
    var keys := Keys(rows, keyOf);
    assert rows[0..i] == rows[..i] && rows[at + 1..|rows|] == rows[at + 1..];
    assert keys[0..i] == keys[..i] && keys[at + 1..|rows|] == keys[at + 1..];
    KeyAt(rows, keyOf, at);
    KeysSlice(rows, keyOf, 0, i);
    KeysSlice(rows, keyOf, i, at);
    KeysSlice(rows, keyOf, at + 1, |rows|);
    KeyOfOne(row, keyOf);
    KeysConcat(rows[..i], [row], keyOf);
    KeysConcat(rows[..i] + [row], rows[i..at], keyOf);
    KeysConcat(rows[..i] + [row] + rows[i..at], rows[at + 1..], keyOf);
  }

  lemma KeysSlice<Row>(rows: seq<Row>, keyOf: Row -> Key, a: nat, b: nat)
    requires a <= b <= |rows|
    ensures Keys(rows[a..b], keyOf) == Keys(rows, keyOf)[a..b]
  {}

  lemma KeysConcat<Row>(a: seq<Row>, b: seq<Row>, keyOf: Row -> Key)
    ensures Keys(a + b, keyOf) == Keys(a, keyOf) + Keys(b, keyOf)
  {}

  lemma KeyOfOne<Row>(row: Row, keyOf: Row -> Key)
    ensures Keys([row], keyOf) == [keyOf(row)]
  {}

  lemma RowInserted<Row>(rows: seq<Row>, row: Row, i: nat, keyOf: Row -> Key)
    requires i <= |rows| && keyOf(row) !in Keys(rows[i..], keyOf)
    ensures var after := rows[..i] + [row] + rows[i..];
            && after[..i + 1] == rows[..i] + [row]
            && Fits(Keys(rows, keyOf), Inserted(i, keyOf(row)))
            && Keys(after, keyOf) == Follow(Keys(rows, keyOf), Inserted(i, keyOf(row)))
            && Keys(after[i + 1..], keyOf) == Without(Keys(rows[i..], keyOf), keyOf(row))
  {
    WithoutAbsent(Keys(rows[i..], keyOf), keyOf(row));
    var after := rows[..i] + [row] + rows[i..];
    assert after[i + 1..] == rows[i..];
  }

  /** Only duplicate keys leave rows over. */
  lemma LeftOver<Row>(was: seq<Key>, notes: seq<Note>, rows: seq<Row>, next: seq<Row>, keyOf: Row -> Key)
    requires |rows| > |next| && rows[..|next|] == next && Replay(was, notes) == Some(Keys(rows, keyOf))
    ensures Replay(was, notes + [Removed(|next|, |rows| - 1)]) == Some(Keys(next, keyOf))
    ensures Moveless(notes) ==> Moveless(notes + [Removed(|next|, |rows| - 1)])
    ensures Keys(rows[|next|..], keyOf) != []
  {
    Notified(was, notes, Removed(|next|, |rows| - 1), Keys(rows, keyOf));
    assert Keys(next, keyOf) == Follow(Keys(rows, keyOf), Removed(|next|, |rows| - 1)) by {
      forall k | 0 <= k < |next| ensures next[k] == rows[..|next|][k] == rows[k] {}
    }
  }

  lemma GoneRun(was: seq<Key>, seen: seq<Key>, wanted: set<Key>, first: nat, i: nat)
    requires first <= i < |was| && seen == was[..i + 1] + Only(was[i + 1..], wanted)
    requires forall k :: first <= k <= i ==> seen[k] !in wanted
    ensures Fits(seen, Removed(first, i)) && Harmless(seen, Removed(first, i), wanted)
    ensures Follow(seen, Removed(first, i)) == was[..first] + Only(was[first..], wanted)
  {
    var gone := was[first..i + 1];
    assert was[first..] == gone + was[i + 1..];
    OnlyConcat(gone, was[i + 1..], wanted);
    forall k | 0 <= k < |gone| ensures gone[k] == seen[first + k] {}
    OnlyNone(gone, wanted);
  }

  lemma GoneWhole(was: seq<Key>, seen: seq<Key>, wanted: set<Key>, first: nat, i: nat)
    requires first <= i < |was| && seen == was[..i + 1] + Only(was[i + 1..], wanted)
    requires forall k :: first <= k <= i ==> seen[k] !in wanted
    requires first > 0 ==> seen[first - 1] in wanted
    ensures WholeRun(seen, Removed(first, i), wanted)
  {
    hide Only;
    var rest := Only(was[i + 1..], wanted);
    if i + 1 < |seen| {
      assert seen[i + 1] == rest[0] && rest[0] in rest;
    }
  }

  /** Looking below position `i` for a row that is not at it is looking from
      it. */
  lemma BelowPlace<Row>(rows: seq<Row>, i: nat, start: nat, from: Option<nat>, key: Key, keyOf: Row -> Key)
    requires i <= |rows| && start == (if i < |rows| then i + 1 else i)
    requires i < |rows| ==> keyOf(rows[i]) != key
    requires from.None? ==> key !in Keys(rows[start..], keyOf)
    requires from.Some? ==> start <= from.value < |rows| && key !in Keys(rows[start..from.value], keyOf)
    ensures from.None? ==> key !in Keys(rows[i..], keyOf)
    ensures from.Some? ==> i < from.value && key !in Keys(rows[i..], keyOf)[..from.value - i]
  {
    if i < |rows| {
      var end := if from.Some? then from.value else |rows|;
      assert rows[start..|rows|] == rows[start..];
      assert Keys(rows[i..], keyOf)[..end - i] == [keyOf(rows[i])] + Keys(rows[start..end], keyOf);
      assert Keys(rows[i..], keyOf)[..|rows| - i] == Keys(rows[i..], keyOf);
    }
  }

  /** With the rows above position `i` placed and the keys `rest` below: what
      makes both promises of `Replaced` come true. */
  ghost predicate OnCourse(was: seq<Key>, now: seq<Key>, notes: seq<Note>, rest: seq<Key>, i: nat)
    requires i <= |now|
  {
    && (Distinct(was) && Distinct(now) ==>
        Spares(was, notes, Common(was, now)) && StillToPlace(rest, now[i..], Common(was, now)))
    && (Only(was, SetOf(now)) == Only(now, SetOf(was)) ==> Moveless(notes) && rest == Only(now[i..], SetOf(was)))
  }

  lemma KeyAt<Row>(rows: seq<Row>, keyOf: Row -> Key, i: nat)
    requires i < |rows|
    ensures |Keys(rows, keyOf)| == |rows| && Keys(rows, keyOf)[i] == keyOf(rows[i])
  {}

  lemma StartPlacing(was: seq<Key>, now: seq<Key>, notes: seq<Note>)
    requires Replay(was, notes) == Some(Only(was, SetOf(now))) && Spares(was, notes, SetOf(now)) && Moveless(notes)
    ensures OnCourse(was, now, notes, Only(was, SetOf(now)), 0)
  {
    SparesFewer(was, notes, SetOf(now), Common(was, now));
    assert now[0..] == now;
    if Distinct(was) {
      OnlyDistinct(was, SetOf(now));
    }
  }

  lemma {:induction false} SparesFewer(view: seq<Key>, notes: seq<Note>, kept: set<Key>, fewer: set<Key>)
    requires fewer <= kept && Spares(view, notes, kept)
    ensures Spares(view, notes, fewer)
  {
    if notes != [] {
      SparesFewer(view, notes[..|notes| - 1], kept, fewer);
    }
  }

  /** One position placed. */
  lemma StayOnCourse(
    was: seq<Key>, now: seq<Key>, notes: seq<Note>, note: Option<Note>, seen: seq<Key>, rest: seq<Key>, i: nat)
    requires i < |now| && Replay(was, notes) == Some(seen) && OnCourse(was, now, notes, rest, i)
    requires note.Some? ==> Fits(seen, note.value) && !note.value.Removed?
    requires note.Some? && note.value.Inserted? ==> note.value.key == now[i] && now[i] !in rest
    requires note.Some? && note.value.Moved? ==> now[i] in rest && rest[0] != now[i]
    ensures var notes' := if note.Some? then notes + [note.value] else notes;
            && (note.Some? ==> Replay(was, notes') == Some(Follow(seen, note.value)))
            && OnCourse(was, now, notes', Without(rest, now[i]), i + 1)
  {
    hide Replay, Spares, Only, Follow, Fits;
    var ahead := now[i..];
    assert ahead[0] == now[i] && ahead[1..] == now[i + 1..];
    if note.Some? {
      Notified(was, notes, note.value, seen);
    }
    if Distinct(was) && Distinct(now) {
      PlacedOne(rest, ahead, Common(was, now));
    }
    if rest == Only(ahead, SetOf(was)) {
      InOrder(rest, ahead, SetOf(was));
    }
  }

  /** Every position placed: only duplicate keys leave rows over. */
  lemma Arrived<Row>(was: seq<Key>, notes: seq<Note>, rows: seq<Row>, next: seq<Row>, keyOf: Row -> Key)
    requires |rows| >= |next| && rows[..|next|] == next && Replay(was, notes) == Some(Keys(rows, keyOf))
    requires OnCourse(was, Keys(next, keyOf), notes, Keys(rows[|next|..], keyOf), |next|)
    ensures |rows| == |next| ==> rows == next
    ensures Replaced(was, Keys(next, keyOf), if |rows| > |next| then notes + [Removed(|next|, |rows| - 1)] else notes)
  {
    var rest := Keys(rows[|next|..], keyOf);
    if |rows| > |next| {
      LeftOver(was, notes, rows, next, keyOf);
      assert rest[0] in rest;
    } else {
      assert rows == next;
    }
  }
}
