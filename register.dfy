/**
 * The editor's named-register store (`Registers` in helix-view/src/register.rs):
 * a map from a one-character name to an ordered list of strings, with three
 * special names dispatched before the map is consulted:
 *   `_` black hole: reads as empty, swallows writes and pushes;
 *   `#` selection indices: reads as "1".."N" for N selections, read-only;
 *   `.` selection contents: reads as the selected text fragments, read-only.
 * Every other character, `*` and `+` included, is a plain stored register.
 *
 * Reading is a pure function of the stored map and the current view
 * (`Read`, `First`, `Last`, `IterPreview`). The mutating operations are the
 * methods of class `Registers`, each specified by a pure transition function
 * (`Written`, `Pushed`, `Removed`) about which the lemmas below are proved.
 */
module Register {
  import opened Wrappers
  import opened Text

  /** The stored registers: each name maps to its values, oldest first. */
  type Store = map<char, seq<string>>

  /** What the store needs from the editor: the text under each selection of
      the current view, in selection order. */
  datatype View = View(fragments: seq<string>) {
    function SelectionCount(): nat {
      |fragments|
    }
  }

  /** What `write` and `push` return: `Ok(())`, or the error for a register
      that does not support the operation. */
  datatype Status = Ok | Unsupported

  predicate IsSpecial(name: char) {
    name == '_' || name == '#' || name == '.'
  }

  /** The special registers that refuse writes and pushes. */
  predicate IsReadOnly(name: char) {
    name == '#' || name == '.'
  }

  /** The invariant of the store: no special register has a stored entry. */
  predicate NoSpecialKeys(s: Store) {
    forall name :: name in s ==> !IsSpecial(name)
  }

  /** The values a push appends to: the stored list, or a new empty one. */
  function Stored(s: Store, name: char): seq<string> {
    if name in s then s[name] else []
  }

  // ---------------------------------------------------------------- reading

  /** `read`: the values of register `name`, none only for a plain register
      without a stored entry. */
  function Read(s: Store, name: char, view: View): (r: Option<seq<string>>)
    ensures r.None? <==> !IsSpecial(name) && name !in s
    ensures name == '_' ==> r == Some([])
    ensures name == '#' ==> r.Some? && |r.value| == view.SelectionCount()
    ensures name == '.' ==> r == Some(view.fragments)
    ensures !IsSpecial(name) && name in s ==> r == Some(s[name])
  {
    match name
    case '_' => Some([])
    case '#' => Some(seq(view.SelectionCount(), i requires 0 <= i => Decimal(i + 1)))
    case '.' => Some(view.fragments)
    case _ => if name in s then Some(s[name]) else None
  }

  /** `first`: the first value `read` yields, none when it yields nothing. */
  function First(s: Store, name: char, view: View): (r: Option<string>)
    ensures r.Some? <==> Read(s, name, view).Some? && Read(s, name, view).value != []
    ensures r.Some? ==> r.value == Read(s, name, view).value[0]
  {
    match Read(s, name, view)
    case None => None
    case Some(values) => if values == [] then None else Some(values[0])
  }

  /** `last`: the last value `read` yields, none when it yields nothing. */
  function Last(s: Store, name: char, view: View): (r: Option<string>)
    ensures r.Some? <==> Read(s, name, view).Some? && Read(s, name, view).value != []
    ensures r.Some? ==> r.value == Read(s, name, view).value[|Read(s, name, view).value| - 1]
  {
    match Read(s, name, view)
    case None => None
    case Some(values) => if values == [] then None else Some(values[|values| - 1])
  }

  /** The selection-index register reads as the numbers 1 to N in order,
      each rendered in decimal, and no two of them alike. */
  lemma SelectionIndicesCount(s: Store, view: View)
    ensures Read(s, '#', view).Some?
    ensures forall i :: 0 <= i < view.SelectionCount() ==>
              IsCanonicalDecimal(Read(s, '#', view).value[i]) &&
              ParseDecimal(Read(s, '#', view).value[i]) == i + 1
    ensures forall i, j :: 0 <= i < j < view.SelectionCount() ==>
              Read(s, '#', view).value[i] != Read(s, '#', view).value[j]
  {
    var values := Read(s, '#', view).value;
    forall i | 0 <= i < view.SelectionCount()
      ensures IsCanonicalDecimal(values[i]) && ParseDecimal(values[i]) == i + 1
    {
      DecimalRoundTrip(i + 1);
    }
    forall i, j | 0 <= i < j < view.SelectionCount()
      ensures values[i] != values[j]
    {
      DecimalInjective(i + 1, j + 1);
    }
  }

  /** With three selections the index register reads ["1", "2", "3"]. */
  lemma ThreeSelectionIndices(s: Store, view: View)
    requires view.SelectionCount() == 3
    ensures Read(s, '#', view) == Some(["1", "2", "3"])
  {
    var values := Read(s, '#', view).value;
    assert Decimal(1) == "1" && Decimal(2) == "2" && Decimal(3) == "3";
    assert values[0] == "1" && values[1] == "2" && values[2] == "3";
    assert values == ["1", "2", "3"];
  }

  /** The special registers read the same whatever is stored. */
  lemma SpecialReadIgnoresStore(s: Store, t: Store, name: char, view: View)
    requires IsSpecial(name)
    ensures Read(s, name, view) == Read(t, name, view)
  {
  }

  // ---------------------------------------------------------------- writing

  /** `write(name, values)`: the status it returns and the store after it. */
  function Written(s: Store, name: char, values: seq<string>): (r: (Status, Store))
    ensures r.0 == Unsupported <==> IsReadOnly(name)
    ensures IsSpecial(name) ==> r.1 == s
    ensures !IsSpecial(name) ==> r.1.Keys == s.Keys + {name} && r.1[name] == values
    ensures forall other :: other != name && other in s ==> other in r.1 && r.1[other] == s[other]
    ensures NoSpecialKeys(s) ==> NoSpecialKeys(r.1)
  {
    match name
    case '_' => (Ok, s)
    case '#' => (Unsupported, s)
    case '.' => (Unsupported, s)
    case _ => (Ok, s[name := values])
  }

  /** `push(name, value)`: the status it returns and the store after it. */
  function Pushed(s: Store, name: char, value: string): (r: (Status, Store))
    ensures r.0 == Unsupported <==> IsReadOnly(name)
    ensures IsSpecial(name) ==> r.1 == s
    ensures !IsSpecial(name) ==> r.1.Keys == s.Keys + {name} && r.1[name] == Stored(s, name) + [value]
    ensures forall other :: other != name && other in s ==> other in r.1 && r.1[other] == s[other]
    ensures NoSpecialKeys(s) ==> NoSpecialKeys(r.1)
  {
    match name
    case '_' => (Ok, s)
    case '#' => (Unsupported, s)
    case '.' => (Unsupported, s)
    case _ => (Ok, s[name := Stored(s, name) + [value]])
  }

  /** `remove(name)`: whether an entry was removed, and the store after it. */
  function Removed(s: Store, name: char): (r: (bool, Store))
    ensures r.0 <==> !IsSpecial(name) && name in s
    ensures IsSpecial(name) ==> r.1 == s
    ensures name !in r.1 || IsSpecial(name)
    ensures r.1.Keys <= s.Keys
    ensures forall other :: other != name && other in s ==> other in r.1 && r.1[other] == s[other]
    ensures NoSpecialKeys(s) ==> NoSpecialKeys(r.1)
  {
    match name
    case '_' => (false, s)
    case '#' => (false, s)
    case '.' => (false, s)
    case _ => (name in s, s - {name})
  }

  /** A write to a plain register reads back exactly; every other register,
      and every register after a write to a special one, reads as before. */
  lemma ReadAfterWrite(s: Store, name: char, values: seq<string>, other: char, view: View)
    ensures Read(Written(s, name, values).1, other, view) ==
            if other == name && !IsSpecial(name) then Some(values) else Read(s, other, view)
  {
  }

  /** A push to a plain register appends to what it read before (to nothing,
      when it had no entry); every other register reads as before. */
  lemma ReadAfterPush(s: Store, name: char, value: string, other: char, view: View)
    ensures Read(Pushed(s, name, value).1, other, view) ==
            if other == name && !IsSpecial(name)
            then Some(Read(s, name, view).GetOr([]) + [value])
            else Read(s, other, view)
  {
  }

  /** After a push to a plain register, `last` is the pushed value. */
  lemma LastAfterPush(s: Store, name: char, value: string, view: View)
    requires !IsSpecial(name)
    ensures Last(Pushed(s, name, value).1, name, view) == Some(value)
  {
  }

  /** After a removal a plain register reads as nothing. */
  lemma ReadAfterRemove(s: Store, name: char, other: char, view: View)
    ensures Read(Removed(s, name).1, other, view) ==
            if other == name && !IsSpecial(name) then None else Read(s, other, view)
  {
  }

  /** The store after pushing `values` one by one into register `name`. */
  function PushedAll(s: Store, name: char, values: seq<string>): Store
    decreases |values|
  {
    if values == [] then s else PushedAll(Pushed(s, name, values[0]).1, name, values[1..])
  }

  /** Repeated pushes keep their order: the register ends up holding what it
      held, followed by the pushed values in the order pushed, and no other
      register changes. */
  lemma {:induction false} PushesKeepOrder(s: Store, name: char, values: seq<string>)
    requires !IsSpecial(name)
    ensures Stored(PushedAll(s, name, values), name) == Stored(s, name) + values
    ensures PushedAll(s, name, values).Keys == if values == [] then s.Keys else s.Keys + {name}
    ensures forall other :: other != name && other in s ==> PushedAll(s, name, values)[other] == s[other]
    decreases |values|
  {
    if values != [] {
      var t := Pushed(s, name, values[0]).1;
      PushesKeepOrder(t, name, values[1..]);
      assert Stored(s, name) + values == Stored(t, name) + values[1..];
    }
  }

  /** Writing a nonempty list into a plain register leaves the same store as
      removing the register and pushing the values one by one. */
  lemma WriteIsRemoveThenPushes(s: Store, name: char, values: seq<string>)
    requires !IsSpecial(name) && values != []
    ensures Written(s, name, values).1 == PushedAll(Removed(s, name).1, name, values)
  {
    var cleared := Removed(s, name).1;
    var pushed := PushedAll(cleared, name, values);
    PushesKeepOrder(cleared, name, values);
    assert Stored(pushed, name) == values;
    assert pushed.Keys == Written(s, name, values).1.Keys;
  }

  // ---------------------------------------------------------------- preview

  /** The fixed previews of the special registers, after the stored ones. */
  const FixedPreviews: seq<(char, string)> :=
    [('_', "<empty>"), ('#', "<selection indices>"), ('.', "<selection contents>")]

  /** The preview of a stored register: the first line of its first value,
      or "<empty>" when it has no values or its first value has no line. */
  function Summary(values: seq<string>): (p: string)
    ensures values == [] || values[0] == [] ==> p == "<empty>"
    ensures values != [] && values[0] != [] ==> '\n' !in p && p <= values[0]
  {
    if values == [] then "<empty>"
    else
      match FirstLine(values[0])
      case None => "<empty>"
      case Some(line) => line
  }

  /** `order` lists every stored name exactly once: the iteration order of
      the map, which the store leaves unspecified. */
  predicate IsListing(order: seq<char>, s: Store) {
    && (forall i, j :: 0 <= i < j < |order| ==> order[i] != order[j])
    && (forall i :: 0 <= i < |order| ==> order[i] in s)
    && (forall name :: name in s ==> name in order)
  }

  lemma {:induction false} DistinctCardinality(xs: seq<char>)
    requires forall i, j :: 0 <= i < j < |xs| ==> xs[i] != xs[j]
    ensures |set x | x in xs| == |xs|
    decreases |xs|
  {
    if xs != [] {
      DistinctCardinality(xs[1..]);
      assert (set x | x in xs) == {xs[0]} + (set x | x in xs[1..]);
    }
  }

  lemma ListingCardinality(order: seq<char>, s: Store)
    requires IsListing(order, s)
    ensures |order| == |s|
  {
    DistinctCardinality(order);
    assert (set x | x in order) == s.Keys;
  }

  /** One preview pair per name of `order`, in that order. */
  function StoredPreviews(s: Store, order: seq<char>): (r: seq<(char, string)>)
    requires forall i :: 0 <= i < |order| ==> order[i] in s
    ensures |r| == |order|
    ensures forall i :: 0 <= i < |order| ==> r[i] == (order[i], Summary(s[order[i]]))
    decreases |order|
  {
    if order == [] then []
    else [(order[0], Summary(s[order[0]]))] + StoredPreviews(s, order[1..])
  }

  /** `iter_preview`: a pair for each stored register with its summary, in
      the map's iteration order `order`, then the three fixed pairs. */
  function IterPreview(s: Store, order: seq<char>): (r: seq<(char, string)>)
    requires IsListing(order, s)
    ensures |r| == |s| + 3
    ensures r[|s|..] == FixedPreviews
    ensures forall i :: 0 <= i < |s| ==> r[i].0 in s && r[i].1 == Summary(s[r[i].0])
    ensures forall name :: name in s ==> exists i :: 0 <= i < |s| && r[i].0 == name
  {
    ListingCardinality(order, s);
    StoredPreviews(s, order) + FixedPreviews
  }

  /** Given the store invariant, no name appears twice in a preview. */
  lemma PreviewNamesDistinct(s: Store, order: seq<char>)
    requires NoSpecialKeys(s) && IsListing(order, s)
    ensures forall i, j :: 0 <= i < j < |IterPreview(s, order)| ==>
              IterPreview(s, order)[i].0 != IterPreview(s, order)[j].0
  {
    var r := IterPreview(s, order);
    ListingCardinality(order, s);
    forall i, j | 0 <= i < j < |r|
      ensures r[i].0 != r[j].0
    {
      if j < |s| {
        assert r[i].0 == order[i] && r[j].0 == order[j];
      } else if i < |s| {
        assert r[j] == FixedPreviews[j - |s|];
      } else {
        assert r[i] == FixedPreviews[i - |s|] && r[j] == FixedPreviews[j - |s|];
      }
    }
  }

  /** On an empty store the preview is exactly the three fixed pairs. */
  lemma PreviewOfEmptyStore(order: seq<char>)
    requires IsListing(order, map[])
    ensures IterPreview(map[], order) == FixedPreviews
  {
    ListingCardinality(order, map[]);
  }

  // ---------------------------------------------------------------- the store

  /** The register store: the stored map, updated in place. */
  class Registers {
    var inner: Store

    ghost predicate Valid()
      reads this
    {
      NoSpecialKeys(inner)
    }

    /** `Registers::default()`: no register has a stored entry. */
    constructor ()
      ensures Valid() && inner == map[]
    {
      inner := map[];
    }

    method Write(name: char, values: seq<string>) returns (status: Status)
      requires Valid()
      modifies this
      ensures Valid()
      ensures (status, inner) == Written(old(inner), name, values)
    {
      match name {
        case '_' => status := Ok;
        case '#' | '.' => status := Unsupported;
        case _ =>
          inner := inner[name := values];
          status := Ok;
      }
    }

    method Push(name: char, value: string) returns (status: Status)
      requires Valid()
      modifies this
      ensures Valid()
      ensures (status, inner) == Pushed(old(inner), name, value)
    {
      match name {
        case '_' => status := Ok;
        case '#' | '.' => status := Unsupported;
        case _ =>
          var values := if name in inner then inner[name] else [];
          inner := inner[name := values + [value]];
          status := Ok;
      }
    }

    method Clear()
      requires Valid()
      modifies this
      ensures Valid() && inner == map[]
    {
      inner := map[];
    }

    method Remove(name: char) returns (removed: bool)
      requires Valid()
      modifies this
      ensures Valid()
      ensures (removed, inner) == Removed(old(inner), name)
    {
      match name {
        case '_' | '#' | '.' => removed := false;
        case _ =>
          removed := name in inner;
          inner := inner - {name};
      }
    }
  }

  /** A caller of the store, using only the contracts above: a yank into a
      plain register reads back in order, a push lands at the end, the
      read-only registers refuse writes, and removal empties the register. */
  method ClientScenario(view: View)
  {
    var r := new Registers();
    var st := r.Write('a', ["x", "y"]);
    assert st == Ok && Read(r.inner, 'a', view) == Some(["x", "y"]);
    st := r.Push('a', "z");
    assert ["x", "y"] + ["z"] == ["x", "y", "z"];
    assert st == Ok && Read(r.inner, 'a', view) == Some(["x", "y", "z"]);
    assert First(r.inner, 'a', view) == Some("x") && Last(r.inner, 'a', view) == Some("z");
    st := r.Write('#', ["q"]);
    assert st == Unsupported;
    st := r.Push('_', "q");
    assert st == Ok && Read(r.inner, '_', view) == Some([]) && 'a' in r.inner;
    var removed := r.Remove('a');
    assert removed && Read(r.inner, 'a', view) == None;
    removed := r.Remove('.');
    assert !removed;
  }
}
