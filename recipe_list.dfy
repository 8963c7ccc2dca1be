/**
 * The recipe list of the cooking-chart editor: reordering by drag and drop, and
 * the name a recipe is saved under.
 */
module RecipeList {
  import opened Wrappers
  import Strings
  import Geometry
  import Seqs

  /** The key of the unsaved draft's placeholder in the list. */
  const DraftKey := "__draft__"

  /** The name used when the title is blank. */
  const Untitled := "タイトルなし"

  // ---------------------------------------------------------------- drag and drop

  /** `xs.splice(at, 1)`. */
  function RemoveAt<T>(xs: seq<T>, at: nat): seq<T>
    requires at < |xs|
  {
    xs[..at] + xs[at + 1..]
  }

  /**
   * `const [moved] = xs.splice(from, 1); xs.splice(to, 0, moved)`: a `to` past
   * the end of the shortened list appends.
   */
  function Move<T>(xs: seq<T>, from: nat, to: nat): seq<T>
    requires from < |xs| && to <= |xs|
  {
    var rest := RemoveAt(xs, from);
    var at := if to < |rest| then to else |rest|;
    rest[..at] + [xs[from]] + rest[at..]
  }

  /** The list the drop works on: the saved names, with the draft's placeholder at its remembered index. */
  function DisplayKeys(names: seq<string>, hasDraft: bool, draftIndex: Option<int>): (r: seq<string>)
    ensures hasDraft ==> multiset(r) == multiset(names) + multiset{DraftKey}
    ensures !hasDraft ==> r == names
  {
    if !hasDraft then names
    else
      var at := match draftIndex
        case Some(k) => Geometry.Clamp(0, |names|, k)
        case None => |names|;
      assert names == names[..at] + names[at..];
      names[..at] + [DraftKey] + names[at..]
  }

  /** The list item the pointer is over when the drop happens, and whether it is the item's upper half. */
  datatype Target = Target(key: string, isTop: bool)

  /** Where the dragged entry is inserted once it has been taken out of `keys`. */
  function DropIndex(keys: seq<string>, from: nat, target: Option<Target>): (r: nat)
    requires from < |keys|
    ensures r <= |keys|
  {
    var to0 := match target
      case Some(t) =>
        (var k := Seqs.IndexOf(keys, t.key);
         (if k < 0 then |keys| else k) + (if t.isTop then 0 else 1))
      case None => |keys|;
    var to1 := if from < to0 then to0 - 1 else to0;
    Geometry.Clamp(0, |keys|, to1)
  }

  /** What a drop does: nothing, or the new order of the saved names and the draft's new index. */
  datatype Drop = Ignored | Reordered(names: seq<string>, draftIndex: Option<int>)

  /**
   * The drop handler of the recipe list. `dragging` is the key being dragged
   * ("" when no drag is in progress) and `proceed` the answer to the save-first
   * confirmation. The dragged entry is taken out of the displayed list and put
   * back at the drop position; the draft placeholder is then removed and its new
   * index remembered.
   */
  function OnDrop(names: seq<string>, hasDraft: bool, draftIndex: Option<int>, dragging: string,
                  target: Option<Target>, proceed: bool): Drop
  {
    if dragging == "" || !proceed then Ignored
    else
      var keys := DisplayKeys(names, hasDraft, draftIndex);
      var from := Seqs.IndexOf(keys, dragging);
      if from < 0 then Ignored
      else
        var moved := Move(keys, from, DropIndex(keys, from, target));
        Reordered(Seqs.Filter(moved, NotDraft), if hasDraft then Some(Seqs.IndexOf(moved, DraftKey)) else draftIndex)
  }

  predicate NotDraft(k: string) {
    k != DraftKey
  }

  // ---------------------------------------------------------------- properties of the drop

  /**
   * Moving an entry keeps every entry, puts the moved one at `to` (at the end
   * when `to` is past it), and leaves the others in their order.
   */
  lemma MoveSpec<T>(xs: seq<T>, from: nat, to: nat)
    requires from < |xs| && to <= |xs|
    ensures var r := Move(xs, from, to); var at := if to < |xs| then to else |xs| - 1;
      |r| == |xs| && r[at] == xs[from] && multiset(r) == multiset(xs) && RemoveAt(r, at) == RemoveAt(xs, from)
  {
    var r := Move(xs, from, to);
    var rest := RemoveAt(xs, from);
    var at := if to < |rest| then to else |rest|;
    assert xs == xs[..from] + [xs[from]] + xs[from + 1..];
    assert multiset(xs) == multiset(rest) + multiset{xs[from]};
    assert rest == rest[..at] + rest[at..];
    assert multiset(r) == multiset(rest[..at]) + multiset{xs[from]} + multiset(rest[at..]);
    assert r[..at] == rest[..at] && r[at + 1..] == rest[at..];
  }

  /** Putting an entry back where it was taken from changes nothing. */
  lemma MoveInPlace<T>(xs: seq<T>, i: nat)
    requires i < |xs|
    ensures Move(xs, i, i) == xs
  {
    assert RemoveAt(xs, i)[..i] == xs[..i] && RemoveAt(xs, i)[i..] == xs[i + 1..];
    assert xs == xs[..i] + [xs[i]] + xs[i + 1..];
  }

  /** A drop happens exactly when a drag is in progress, the confirmation went ahead and the dragged key is listed. */
  lemma DropIgnoredIff(names: seq<string>, hasDraft: bool, draftIndex: Option<int>, dragging: string,
                       target: Option<Target>, proceed: bool)
    ensures OnDrop(names, hasDraft, draftIndex, dragging, target, proceed).Ignored? <==>
      dragging == "" || !proceed || dragging !in DisplayKeys(names, hasDraft, draftIndex)
  {
  }

  /** Without the placeholder, filtering it out leaves exactly the saved names, each as often. */
  lemma WithoutDraft(moved: seq<string>, names: seq<string>, hasDraft: bool)
    requires DraftKey !in names
    requires multiset(moved) == multiset(names) + (if hasDraft then multiset{DraftKey} else multiset{})
    ensures multiset(Seqs.Filter(moved, NotDraft)) == multiset(names)
  {
    Seqs.FilterCount(moved, NotDraft);
    var r := Seqs.Filter(moved, NotDraft);
    forall x ensures multiset(r)[x] == multiset(names)[x] {
      if x == DraftKey {
        assert multiset(names)[x] == 0;
      }
    }
    assert multiset(r) == multiset(names);
  }

  /**
   * A drop only reorders: the saved names after it are the saved names before
   * it, each as often as before.
   */
  lemma DropPermutes(names: seq<string>, hasDraft: bool, draftIndex: Option<int>, dragging: string,
                     target: Option<Target>, proceed: bool)
    requires DraftKey !in names
    requires OnDrop(names, hasDraft, draftIndex, dragging, target, proceed).Reordered?
    ensures multiset(OnDrop(names, hasDraft, draftIndex, dragging, target, proceed).names) == multiset(names)
  {
    var keys := DisplayKeys(names, hasDraft, draftIndex);
    var from := Seqs.IndexOf(keys, dragging);
    var to := DropIndex(keys, from, target);
    MoveSpec(keys, from, to);
    WithoutDraft(Move(keys, from, to), names, hasDraft);
  }

  /** With a draft in the list, its remembered index is where the placeholder ended up. */
  lemma DropRemembersDraft(names: seq<string>, hasDraft: bool, draftIndex: Option<int>, dragging: string,
                           target: Option<Target>, proceed: bool)
    requires hasDraft
    requires OnDrop(names, hasDraft, draftIndex, dragging, target, proceed).Reordered?
    ensures var r := OnDrop(names, hasDraft, draftIndex, dragging, target, proceed);
      var keys := DisplayKeys(names, hasDraft, draftIndex);
      var from := Seqs.IndexOf(keys, dragging);
      0 <= from && var moved := Move(keys, from, DropIndex(keys, from, target));
      r.draftIndex.Some? && 0 <= r.draftIndex.value < |moved| && moved[r.draftIndex.value] == DraftKey
  {
    var keys := DisplayKeys(names, hasDraft, draftIndex);
    var from := Seqs.IndexOf(keys, dragging);
    var to := DropIndex(keys, from, target);
    MoveSpec(keys, from, to);
    assert DraftKey in multiset(Move(keys, from, to));
  }

  /** Where a drop on a listed entry `t` puts the entry taken from `from`. */
  lemma DropIndexOnEntry(keys: seq<string>, from: nat, t: nat, isTop: bool)
    requires from < |keys| && t < |keys| && from != t && Seqs.NoDup(keys)
    ensures DropIndex(keys, from, Some(Target(keys[t], isTop))) ==
      if from < t then (if isTop then t - 1 else t) else (if isTop then t else t + 1)
  {
    assert Seqs.IndexOf(keys, keys[t]) == t;
  }

  /** The moved entry lands right before entry `t`, or right after it. */
  lemma MoveNextTo<T>(xs: seq<T>, from: nat, t: nat, isTop: bool)
    requires from < |xs| && t < |xs| && from != t
    ensures var to := if from < t then (if isTop then t - 1 else t) else (if isTop then t else t + 1);
      var r := Move(xs, from, to);
      if isTop then to + 1 < |r| && r[to] == xs[from] && r[to + 1] == xs[t]
      else 0 < to < |r| && r[to - 1] == xs[t] && r[to] == xs[from]
  {
    var to := if from < t then (if isTop then t - 1 else t) else (if isTop then t else t + 1);
    MoveSpec(xs, from, to);
    var rest := RemoveAt(xs, from);
    var r := Move(xs, from, to);
    assert r[..to] == rest[..to] && r[to + 1..] == rest[to..];
    if from < t {
      assert rest[t - 1] == xs[t];
    } else {
      assert rest[t] == xs[t];
    }
  }

  /**
   * Dropping a saved recipe on the upper half of another one places it right
   * before that one; on the lower half, right after it.
   */
  lemma DropNextToTarget(names: seq<string>, dragging: string, key: string, isTop: bool)
    requires Seqs.NoDup(names) && DraftKey !in names
    requires dragging in names && key in names && dragging != key && dragging != ""
    ensures var r := OnDrop(names, false, None, dragging, Some(Target(key, isTop)), true);
      r.Reordered? &&
      (exists i :: 0 <= i < |r.names| - 1 && (if isTop then r.names[i] == dragging && r.names[i + 1] == key
                                               else r.names[i] == key && r.names[i + 1] == dragging))
  {
    var from := Seqs.IndexOf(names, dragging);
    var t := Seqs.IndexOf(names, key);
    var to := DropIndex(names, from, Some(Target(key, isTop)));
    DropIndexOnEntry(names, from, t, isTop);
    MoveNextTo(names, from, t, isTop);
    var moved := Move(names, from, to);
    MoveSpec(names, from, to);
    forall x | x in moved ensures NotDraft(x) {
      assert x in multiset(moved);
    }
    Seqs.FilterAll(moved, NotDraft);
    if isTop {
      assert moved[to] == dragging && moved[to + 1] == key;
    } else {
      assert moved[to - 1] == key && moved[to] == dragging;
    }
  }

  // ---------------------------------------------------------------- the save name

  /** The title a recipe is saved under: the trimmed label, or the placeholder title when blank. */
  function Desired(title: string): (r: string)
    ensures r != ""
  {
    var t := Strings.Trim(title);
    if t == "" then Untitled else t
  }

  /** `${base} (${i})`. */
  function Numbered(base: string, i: nat): string {
    base + " (" + Strings.NatToString(i) + ")"
  }

  /** Different numbers give different names. */
  lemma NumberedInjective(base: string, i: nat, j: nat)
    requires Numbered(base, i) == Numbered(base, j)
    ensures i == j
  {
    var a, b := Numbered(base, i), Numbered(base, j);
    assert a[|base| + 2..|a| - 1] == Strings.NatToString(i);
    assert b[|base| + 2..|b| - 1] == Strings.NatToString(j);
    Strings.NatToStringInjective(i, j);
  }

  /** `k` is the first number from 2 on whose numbered name is free. */
  predicate FirstFree(base: string, names: seq<string>, k: nat) {
    k >= 2 && Numbered(base, k) !in names && forall j :: 2 <= j < k ==> Numbered(base, j) in names
  }

  /** There is only one first free number. */
  lemma FirstFreeUnique(base: string, names: seq<string>, k1: nat, k2: nat)
    requires FirstFree(base, names, k1) && FirstFree(base, names, k2)
    ensures k1 == k2
  {
  }

  /** The numbering loop of `saveRecipe`: count up from 2 until the numbered name is free. */
  method FirstFreeNumber(base: string, names: seq<string>) returns (i: nat)
    ensures FirstFree(base, names, i)
  {
    i := 2;
    ghost var taken: set<string> := {};
    while Numbered(base, i) in names
      invariant i >= 2
      invariant forall j :: 2 <= j < i ==> Numbered(base, j) in names
      invariant taken == set j | 2 <= j < i :: Numbered(base, j)
      invariant taken <= set x | x in names
      decreases (set x | x in names) - taken
    {
      forall j | 2 <= j < i ensures Numbered(base, j) != Numbered(base, i) {
        if Numbered(base, j) == Numbered(base, i) {
          NumberedInjective(base, j, i);
        }
      }
      taken := taken + {Numbered(base, i)};
      i := i + 1;
    }
  }

  /**
   * The name `saveRecipe` saves under, or None when it refuses. A new recipe
   * (`current` is "") takes its title, numbered when that is taken. A saved one
   * keeps its name, or takes its new title, refused when another recipe has it.
   */
  method SaveName(current: string, title: string, names: seq<string>) returns (r: Option<string>)
    ensures var d := Desired(title);
      (current == "" && d !in names ==> r == Some(d)) &&
      (current == "" && d in names ==> exists k :: FirstFree(d, names, k) && r == Some(Numbered(d, k))) &&
      (current != "" && d == current ==> r == Some(current)) &&
      (current != "" && d != current ==> r == if d in names then None else Some(d))
    ensures r.Some? ==> r.value == current || r.value !in names
  {
    var d := Desired(title);
    if current == "" {
      if d in names {
        var k := FirstFreeNumber(d, names);
        r := Some(Numbered(d, k));
      } else {
        r := Some(d);
      }
    } else if d != current {
      if d in names {
        r := None;
      } else {
        r := Some(d);
      }
    } else {
      r := Some(current);
    }
  }
}
