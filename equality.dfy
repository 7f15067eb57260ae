/**
 * The comparator: the `Difference` report, the arms of `push_difference!`,
 * the default `looks_like` rule and the `BaseEntity` comparison.
 */
module Equality {
  import opened Wrappers
  import opened Resources

  /** One reported difference between a current record and a new one. */
  datatype Difference =
    | UpdatingField(field: string, currentValue: string, newValue: string)
    | AddingItem(field: string, item: string)
    | RemovingItem(field: string, item: string)
      /** A field whose value cannot be shown coherently. */
    | UpdatingComplexField(field: string)

  /** `Display for Difference`: note that an update shows the new value before the current one. */
  function Render(d: Difference): (r: string)
    ensures |r| > |d.field|
    ensures d.AddingItem? ==> r[0] == '+' && r[1..|d.field| + 1] == d.field
    ensures d.RemovingItem? ==> r[0] == '-' && r[1..|d.field| + 1] == d.field
    ensures d.UpdatingField? || d.UpdatingComplexField? ==> r[..|d.field|] == d.field
  {
    match d
    case UpdatingField(field, currentValue, newValue) => field + ": '" + newValue + "' -> '" + currentValue + "'"
    case AddingItem(field, item) => "+" + field + ": " + item
    case RemovingItem(field, item) => "-" + field + ": " + item
    case UpdatingComplexField(field) => field + " will be updated"
  }

  /** An added item and a removed item never render alike, whatever their fields and items. */
  lemma AddedAndRemovedRenderApart(a: Difference, b: Difference)
    requires a.AddingItem? && b.RemovingItem?
    ensures Render(a) != Render(b)
    ensures Render(a)[0] == '+' && Render(b)[0] == '-'
  {
    assert Render(a)[0] == '+';
    assert Render(b)[0] == '-';
  }

  /** `bool::to_string`. */
  function FlagText(b: bool): string {
    if b then "true" else "false"
  }

  function Verbatim(s: string): string {
    s
  }

  /** How the optional arm shows a value: `None` becomes the empty string. */
  function OptionText(o: Option<string>): string {
    if o.None? then "" else o.value
  }

  /** The scalar arm: one `UpdatingField` exactly when the two values differ. */
  function FieldDiff<V(==)>(field: string, currentValue: V, newValue: V, show: V -> string): (r: seq<Difference>)
    ensures r == [] <==> currentValue == newValue
    ensures |r| <= 1
    ensures forall d | d in r :: d == UpdatingField(field, show(currentValue), show(newValue))
  {
    if currentValue != newValue then [UpdatingField(field, show(currentValue), show(newValue))] else []
  }

  /**
   * The optional arm: the options themselves are compared, and each side is
   * shown with `None` as the empty string.
   */
  function OptionalFieldDiff(field: string, currentValue: Option<string>, newValue: Option<string>): (r: seq<Difference>)
    ensures r == [] <==> currentValue == newValue
    ensures forall d | d in r :: d.UpdatingField? && d.field == field
  {
    FieldDiff(field, currentValue, newValue, OptionText)
  }

  /** Whether a report holds an entry about `field`. */
  predicate Reports(r: seq<Difference>, field: string) {
    exists d | d in r :: d.field == field
  }

  lemma ReportsConcat(a: seq<Difference>, b: seq<Difference>, field: string)
    ensures Reports(a + b, field) <==> Reports(a, field) || Reports(b, field)
  {
    if Reports(a + b, field) {
      var d :| d in a + b && d.field == field;
      assert d in a || d in b;
    }
    if Reports(a, field) {
      var d :| d in a && d.field == field;
      assert d in a + b;
    }
    if Reports(b, field) {
      var d :| d in b && d.field == field;
      assert d in a + b;
    }
  }

  /** The scalar arm reports `field`, and only it, exactly when the values differ. */
  lemma FieldDiffReports<V>(field: string, currentValue: V, newValue: V, show: V -> string, other: string)
    ensures Reports(FieldDiff(field, currentValue, newValue, show), other) <==> field == other && currentValue != newValue
  {
    var r := FieldDiff(field, currentValue, newValue, show);
    if currentValue != newValue {
      assert r[0] in r;
    }
  }

  /** A missing value and an empty one differ, yet both sides of the report read ''. */
  lemma MissingVersusEmpty(field: string)
    ensures OptionalFieldDiff(field, None, Some("")) == [UpdatingField(field, "", "")]
    ensures Render(OptionalFieldDiff(field, None, Some(""))[0]) == field + ": '' -> ''"
  {
  }

  /** The report of the scalar arm prints the other (new) value first, then the current one. */
  lemma {:induction false} RenderedNewValueFirst<V>(field: string, currentValue: V, newValue: V, show: V -> string)
    requires currentValue != newValue
    ensures |FieldDiff(field, currentValue, newValue, show)| == 1
    ensures Render(FieldDiff(field, currentValue, newValue, show)[0])
      == field + ": '" + show(newValue) + "' -> '" + show(currentValue) + "'"
  {
    var d := FieldDiff(field, currentValue, newValue, show)[0];
    assert d in FieldDiff(field, currentValue, newValue, show);
  }

  /** `iter().find(...)` succeeds: some element of `others` is the same resource as `item`. */
  predicate HasMatch<T>(item: T, others: seq<T>, same: (T, T) -> bool) {
    exists j :: 0 <= j < |others| && same(item, others[j])
  }

  /** The items that have no counterpart among `others`, in their original order. */
  function Unmatched<T>(items: seq<T>, others: seq<T>, same: (T, T) -> bool): (r: seq<T>)
    ensures |r| <= |items|
  {
    if items == [] then []
    else
      var last := items[|items| - 1];
      Unmatched(items[..|items| - 1], others, same) + if HasMatch(last, others, same) then [] else [last]
  }

  /** The filter keeps exactly the items without a counterpart. */
  lemma {:induction false} UnmatchedMembers<T>(items: seq<T>, others: seq<T>, same: (T, T) -> bool)
    ensures forall x | x in Unmatched(items, others, same) :: x in items && !HasMatch(x, others, same)
    ensures forall i | 0 <= i < |items| :: !HasMatch(items[i], others, same) ==> items[i] in Unmatched(items, others, same)
  {
    if items != [] {
      var prefix := items[..|items| - 1];
      UnmatchedMembers(prefix, others, same);
      assert forall i | 0 <= i < |prefix| :: items[i] == prefix[i];
      assert items == prefix + [items[|items| - 1]];
    }
  }

  /** Nothing is left over exactly when every item has a counterpart. */
  lemma UnmatchedEmptyIff<T>(items: seq<T>, others: seq<T>, same: (T, T) -> bool)
    ensures Unmatched(items, others, same) == [] <==> forall i | 0 <= i < |items| :: HasMatch(items[i], others, same)
  {
    UnmatchedMembers(items, others, same);
  }

  /** One `AddingItem` per item, shown by `show`. */
  function AsAdded<T>(field: string, items: seq<T>, show: T -> string): (r: seq<Difference>)
    ensures |r| == |items|
    ensures forall i | 0 <= i < |items| :: r[i] == AddingItem(field, show(items[i]))
  {
    if items == [] then [] else AsAdded(field, items[..|items| - 1], show) + [AddingItem(field, show(items[|items| - 1]))]
  }

  /** One `RemovingItem` per item, shown by `show`. */
  function AsRemoved<T>(field: string, items: seq<T>, show: T -> string): (r: seq<Difference>)
    ensures |r| == |items|
    ensures forall i | 0 <= i < |items| :: r[i] == RemovingItem(field, show(items[i]))
  {
    if items == [] then [] else AsRemoved(field, items[..|items| - 1], show) + [RemovingItem(field, show(items[|items| - 1]))]
  }

  /**
   * The collection arm: an `AddingItem` for each source item with no match in
   * the target (in source order), then a `RemovingItem` for each target item
   * with no match in the source (in target order); matched items report nothing.
   */
  function CollectionDiff<T>(field: string, source: seq<T>, target: seq<T>, same: (T, T) -> bool, show: T -> string)
    : (r: seq<Difference>)
    ensures |r| <= |source| + |target|
  {
    AsAdded(field, Unmatched(source, target, same), show) + AsRemoved(field, Unmatched(target, source, same), show)
  }

  /** The arm reports nothing exactly when every item on each side has a counterpart on the other. */
  lemma CollectionDiffEmptyIff<T>(field: string, source: seq<T>, target: seq<T>, same: (T, T) -> bool, show: T -> string)
    ensures CollectionDiff(field, source, target, same, show) == [] <==>
      (forall i | 0 <= i < |source| :: HasMatch(source[i], target, same)) &&
      (forall j | 0 <= j < |target| :: HasMatch(target[j], source, same))
  {
    UnmatchedEmptyIff(source, target, same);
    UnmatchedEmptyIff(target, source, same);
  }

  /** All additions come first, one per unmatched source item; all removals follow. */
  lemma AddedBeforeRemoved<T>(field: string, source: seq<T>, target: seq<T>, same: (T, T) -> bool, show: T -> string)
    ensures var r := CollectionDiff(field, source, target, same, show);
      var k := |Unmatched(source, target, same)|;
      k <= |r| && (forall i | 0 <= i < k :: r[i].AddingItem?) && (forall i | k <= i < |r| :: r[i].RemovingItem?)
  {
  }

  /** The `vec` arm: the items are entities, reported by name, matched by `is_same_resource`. */
  function EntityCollectionDiff(field: string, source: seq<BaseEntity>, target: seq<BaseEntity>): (r: seq<Difference>)
    ensures forall d | d in r :: d.AddingItem? ==>
      exists i :: 0 <= i < |source| && d.item == source[i].name && !HasMatch(source[i], target, IsSameBaseEntity)
    ensures forall d | d in r :: d.RemovingItem? ==>
      exists j :: 0 <= j < |target| && d.item == target[j].name && !HasMatch(target[j], source, IsSameBaseEntity)
  {
    var r := CollectionDiff(field, source, target, IsSameBaseEntity, EntityName);
    UnmatchedLabels(field, source, target, IsSameBaseEntity, EntityName);
    r
  }

  /** The `str_vec` arm: the items are strings, reported as themselves. */
  function StringCollectionDiff(field: string, source: seq<string>, target: seq<string>, same: (string, string) -> bool)
    : (r: seq<Difference>)
    ensures forall d | d in r :: d.AddingItem? ==> d.item in source && !HasMatch(d.item, target, same)
    ensures forall d | d in r :: d.RemovingItem? ==> d.item in target && !HasMatch(d.item, source, same)
  {
    var r := CollectionDiff(field, source, target, same, Verbatim);
    UnmatchedLabels(field, source, target, same, Verbatim);
    r
  }

  /** Every shown item comes from an unmatched item. */
  lemma ShownUnmatched<T>(items: seq<T>, others: seq<T>, same: (T, T) -> bool, show: T -> string, k: nat)
    requires k < |Unmatched(items, others, same)|
    ensures exists i :: (0 <= i < |items| && show(Unmatched(items, others, same)[k]) == show(items[i]) &&
                         !HasMatch(items[i], others, same))
  {
    var u := Unmatched(items, others, same);
    UnmatchedMembers(items, others, same);
    assert u[k] in u;
    var i :| 0 <= i < |items| && items[i] == u[k];
  }

  /** Every reported item is the label of an unmatched item of the right side. */
  lemma UnmatchedLabels<T>(field: string, source: seq<T>, target: seq<T>, same: (T, T) -> bool, show: T -> string)
    ensures forall d | d in CollectionDiff(field, source, target, same, show) :: d.AddingItem? ==>
      exists i :: 0 <= i < |source| && d.item == show(source[i]) && !HasMatch(source[i], target, same)
    ensures forall d | d in CollectionDiff(field, source, target, same, show) :: d.RemovingItem? ==>
      exists j :: 0 <= j < |target| && d.item == show(target[j]) && !HasMatch(target[j], source, same)
  {
    var added := Unmatched(source, target, same);
    var removed := Unmatched(target, source, same);
    var r := CollectionDiff(field, source, target, same, show);
    assert r == AsAdded(field, added, show) + AsRemoved(field, removed, show);
    forall d | d in r && d.AddingItem?
      ensures exists i :: 0 <= i < |source| && d.item == show(source[i]) && !HasMatch(source[i], target, same)
    {
      var k :| 0 <= k < |r| && r[k] == d;
      assert k < |added|;
      assert d.item == show(added[k]);
      ShownUnmatched(source, target, same, show, k);
    }
    forall d | d in r && d.RemovingItem?
      ensures exists j :: 0 <= j < |target| && d.item == show(target[j]) && !HasMatch(target[j], source, same)
    {
      var k :| 0 <= k < |r| && r[k] == d;
      assert k >= |added|;
      assert d.item == show(removed[k - |added|]);
      ShownUnmatched(target, source, same, show, k - |added|);
    }
  }

  /** Extending the items by one extends the filtered items by at most that one. */
  lemma UnmatchedSnoc<T>(items: seq<T>, x: T, others: seq<T>, same: (T, T) -> bool)
    ensures Unmatched(items + [x], others, same) ==
      Unmatched(items, others, same) + if HasMatch(x, others, same) then [] else [x]
  {
    assert (items + [x])[..|items|] == items;
  }

  lemma AsAddedSnoc<T>(field: string, items: seq<T>, x: T, show: T -> string)
    ensures AsAdded(field, items + [x], show) == AsAdded(field, items, show) + [AddingItem(field, show(x))]
  {
    assert (items + [x])[..|items|] == items;
  }

  lemma AsRemovedSnoc<T>(field: string, items: seq<T>, x: T, show: T -> string)
    ensures AsRemoved(field, items + [x], show) == AsRemoved(field, items, show) + [RemovingItem(field, show(x))]
  {
    assert (items + [x])[..|items|] == items;
  }

  /** The entry an `extend` pass writes for an item without a counterpart. */
  function Mark(field: string, item: string, adding: bool): Difference {
    if adding then AddingItem(field, item) else RemovingItem(field, item)
  }

  /** One `extend` pass, item by item: the entry of each item that has no counterpart among `others`. */
  function Pass<T>(field: string, items: seq<T>, others: seq<T>, same: (T, T) -> bool, show: T -> string, adding: bool)
    : seq<Difference>
  {
    if items == [] then []
    else
      var last := items[|items| - 1];
      Pass(field, items[..|items| - 1], others, same, show, adding) +
      if HasMatch(last, others, same) then [] else [Mark(field, show(last), adding)]
  }

  /** The adding pass writes the filtered source items as additions. */
  lemma {:induction false} AddingPass<T>(field: string, items: seq<T>, others: seq<T>, same: (T, T) -> bool, show: T -> string)
    ensures Pass(field, items, others, same, show, true) == AsAdded(field, Unmatched(items, others, same), show)
  {
    if items != [] {
      var prefix := items[..|items| - 1];
      var last := items[|items| - 1];
      AddingPass(field, prefix, others, same, show);
      assert items == prefix + [last];
      UnmatchedSnoc(prefix, last, others, same);
      if !HasMatch(last, others, same) {
        AsAddedSnoc(field, Unmatched(prefix, others, same), last, show);
      }
    }
  }

  /** The removing pass writes the filtered target items as removals. */
  lemma {:induction false} RemovingPass<T>(field: string, items: seq<T>, others: seq<T>, same: (T, T) -> bool, show: T -> string)
    ensures Pass(field, items, others, same, show, false) == AsRemoved(field, Unmatched(items, others, same), show)
  {
    if items != [] {
      var prefix := items[..|items| - 1];
      var last := items[|items| - 1];
      RemovingPass(field, prefix, others, same, show);
      assert items == prefix + [last];
      UnmatchedSnoc(prefix, last, others, same);
      if !HasMatch(last, others, same) {
        AsRemovedSnoc(field, Unmatched(prefix, others, same), last, show);
      }
    }
  }

  /**
   * The collection arm as the macro runs it: two `extend` passes over a
   * growing report, the additions first, then the removals.
   */
  method ExtendCollection<T>(differences: seq<Difference>, field: string, source: seq<T>, target: seq<T>,
                             same: (T, T) -> bool, show: T -> string)
    returns (out: seq<Difference>)
    ensures out == differences + CollectionDiff(field, source, target, same, show)
  {
    out := ExtendPass(differences, field, source, target, same, show, true);
    out := ExtendPass(out, field, target, source, same, show, false);
    AddingPass(field, source, target, same, show);
    RemovingPass(field, target, source, same, show);
  }

  /** One `extend` pass: each item is looked up among `others` with a linear search. */
  method ExtendPass<T>(differences: seq<Difference>, field: string, items: seq<T>, others: seq<T>,
                       same: (T, T) -> bool, show: T -> string, adding: bool)
    returns (out: seq<Difference>)
    ensures out == differences + Pass(field, items, others, same, show, adding)
  {
    out := differences;
    var i := 0;
    while i < |items|
      invariant 0 <= i <= |items|
      invariant out == differences + Pass(field, items[..i], others, same, show, adding)
    {
      assert items[..i + 1][..i] == items[..i];
      var found := Find(items[i], others, same);
      if !found {
        out := out + [Mark(field, show(items[i]), adding)];
      }
      i := i + 1;
    }
    assert items[..|items|] == items;
  }

  /** `others.iter().find(|o| item.is_same_resource(o)).is_some()`. */
  method Find<T>(item: T, others: seq<T>, same: (T, T) -> bool) returns (found: bool)
    ensures found <==> HasMatch(item, others, same)
  {
    found := false;
    var j := 0;
    while j < |others| && !found
      invariant 0 <= j <= |others|
      invariant found <==> exists k :: 0 <= k < j && same(item, others[k])
    {
      found := same(item, others[j]);
      j := j + 1;
    }
  }

  /** The default `looks_like`: two records look alike when no difference is reported. */
  predicate DefaultLooksLike<T>(a: T, b: T, differences: (T, T) -> seq<Difference>) {
    differences(a, b) == []
  }

  function EntityName(e: BaseEntity): string {
    e.name
  }

  /** `BaseEntity::is_same_resource`: exact, case-sensitive name equality. */
  predicate IsSameBaseEntity(a: BaseEntity, b: BaseEntity) {
    a.name == b.name
  }

  /** `BaseEntity::differences`: `name` first, then `disabled`; current values from `entity`, new ones from `other`. */
  function BaseEntityDifferences(entity: BaseEntity, other: BaseEntity): (r: seq<Difference>)
    ensures r == [] <==> entity.name == other.name && entity.disabled == other.disabled
    ensures |r| == (if entity.name != other.name then 1 else 0) + (if entity.disabled != other.disabled then 1 else 0)
    ensures entity.name != other.name ==> r[0] == UpdatingField("name", entity.name, other.name)
    ensures entity.disabled != other.disabled ==>
      r[|r| - 1] == UpdatingField("disabled", FlagText(entity.disabled), FlagText(other.disabled))
  {
    FieldDiff("name", entity.name, other.name, Verbatim) + FieldDiff("disabled", entity.disabled, other.disabled, FlagText)
  }

  /** The pushes of `BaseEntity::differences`, one field after the other. */
  method CollectBaseEntityDifferences(entity: BaseEntity, other: BaseEntity) returns (differences: seq<Difference>)
    ensures differences == BaseEntityDifferences(entity, other)
  {
    differences := [];
    if entity.name != other.name {
      differences := differences + [UpdatingField("name", entity.name, other.name)];
    }
    if entity.disabled != other.disabled {
      differences := differences + [UpdatingField("disabled", FlagText(entity.disabled), FlagText(other.disabled))];
    }
  }

  /** `BaseEntity::looks_like` overrides the default rule and compares the name only. */
  predicate BaseEntityLooksLike(entity: BaseEntity, other: BaseEntity) {
    entity.name == other.name
  }

  /**
   * The override departs from the default rule exactly when only `disabled`
   * differs: the entities then look alike while a difference is reported.
   */
  lemma BaseEntityOverride(entity: BaseEntity, other: BaseEntity)
    ensures BaseEntityLooksLike(entity, other) <==>
      DefaultLooksLike(entity, other, BaseEntityDifferences) || (entity.name == other.name && entity.disabled != other.disabled)
    ensures entity.name == other.name && entity.disabled != other.disabled ==>
      BaseEntityLooksLike(entity, other) &&
      BaseEntityDifferences(entity, other) == [UpdatingField("disabled", FlagText(entity.disabled), FlagText(other.disabled))]
  {
  }
}
