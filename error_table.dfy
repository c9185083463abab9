/**
 * The per-property validation-error table kept by both validation base
 * classes (`BaseNotifyValidationModel` and `BaseNotifyValidationModelExtended`):
 * a dictionary from property name to the list of its messages, and the
 * events raised while it is updated.
 *
 * The functions here are the specification the two classes' methods are
 * proved against; the lemmas state what the table promises. Note that
 * validation ACCUMULATES: a call that reports at least one error only ever
 * appends to the property's list, so old messages survive.
 */
module ErrorTable {
  import opened Wrappers
  import opened General

  type Table = map<string, seq<string>>

  /** A raised `PropertyChanged` or `ErrorsChanged` event, by property name. */
  datatype Event = PropertyChanged(propertyName: string) | ErrorsChanged(propertyName: string)

  /** `n` copies of the same event. */
  function Repeat(e: Event, n: nat): (r: seq<Event>)
    ensures |r| == n
    ensures forall i :: 0 <= i < n ==> r[i] == e
  {
    if n == 0 then [] else Repeat(e, n - 1) + [e]
  }

  lemma {:induction false} RepeatAdd(e: Event, a: nat, b: nat)
    ensures Repeat(e, a) + Repeat(e, b) == Repeat(e, a + b)
  {
    assert |Repeat(e, a) + Repeat(e, b)| == a + b;
    assert forall i :: 0 <= i < a + b ==> (Repeat(e, a) + Repeat(e, b))[i] == e;
  }

  /** One `PropertyChanged` per name, in order: `NotifyPropertyChanged(params string[])`. */
  function PropertyChangedEach(names: seq<string>): (r: seq<Event>)
    ensures |r| == |names|
    ensures forall i :: 0 <= i < |names| ==> r[i] == PropertyChanged(names[i])
  {
    if names == [] then [] else PropertyChangedEach(names[..|names| - 1]) + [PropertyChanged(names[|names| - 1])]
  }

  /** The messages stored for `p`; a property without an entry has none. */
  function ListOf(t: Table, p: string): seq<string> {
    if p in t then t[p] else []
  }

  /** Every stored list is non-empty and holds no message twice. */
  ghost predicate WellFormed(t: Table) {
    forall p :: p in t ==> t[p] != [] && NoDuplicates(t[p])
  }

  /** Some property has at least one message (`HasErrors` of the base class). */
  predicate AnyErrors(t: Table) {
    exists p :: p in t && t[p] != []
  }

  /** The table after `AddValidationError(p, e)`. */
  function AddError(t: Table, p: string, e: string): Table {
    t[p := AddUnique(ListOf(t, p), e)]
  }

  /** The table after `AddValidationError(p, e)` for each `e` of `es` in turn. */
  function AddErrors(t: Table, p: string, es: seq<string>): Table {
    if es == [] then t else t[p := AddAllUnique(ListOf(t, p), es)]
  }

  /** How many of `es` were new for `p`: the number of `ErrorsChanged(p)` raised while adding them. */
  function AddedCount(t: Table, p: string, es: seq<string>): nat {
    |AddAllUnique(ListOf(t, p), es)| - |ListOf(t, p)|
  }

  /**
   * The table after `Validate(p, es)`: the messages of a non-empty `es` are
   * added to `p`'s list; an empty `es` removes `p`'s entry.
   */
  function ValidateTable(t: Table, p: string, es: seq<string>): Table {
    if es != [] then AddErrors(t, p, es) else t - {p}
  }

  /** The events `Validate(p, es)` raises. */
  function ValidateEvents(t: Table, p: string, es: seq<string>): seq<Event> {
    if es != [] then Repeat(ErrorsChanged(p), AddedCount(t, p, es))
    else if p in t then [ErrorsChanged(p)]
    else []
  }

  /**
   * `GetErrors`: a null or empty name gives an empty list; otherwise the
   * property's list, or null when it has no entry (`TryGetValue`
   * overwrites the pre-set empty list with null).
   */
  function GetErrorsOf(t: Table, propertyName: Option<string>): (r: Option<seq<string>>)
    ensures propertyName == Null || propertyName == Some("") ==> r == Some([])
    ensures propertyName != Null && propertyName != Some("") ==>
      (r == Null <==> propertyName.value !in t)
    ensures propertyName != Null && propertyName != Some("") && r != Null ==>
      r.value == t[propertyName.value]
  {
    if propertyName == Null || propertyName.value == "" then Some([])
    else if propertyName.value in t then Some(t[propertyName.value])
    else Null
  }

  // ---------------------------------------------------------------------
  // Step lemmas for the loops that add messages one at a time
  // ---------------------------------------------------------------------

  /** Adding one more message is one `AddValidationError`, and it raises an event iff it was new. */
  lemma AddErrorsStep(t: Table, p: string, es: seq<string>, i: nat)
    requires i < |es|
    ensures AddErrors(t, p, es[..i + 1]) == AddError(AddErrors(t, p, es[..i]), p, es[i])
    ensures AddedCount(t, p, es[..i + 1]) ==
      AddedCount(t, p, es[..i]) + (if es[i] in ListOf(AddErrors(t, p, es[..i]), p) then 0 else 1)
  {
    assert es[..i + 1][..i] == es[..i];
    assert es[..i + 1][i] == es[i];
    assert es[..i + 1] != [];
  }

  /** Adding `a` and then `b` is adding `a + b`, with the events of both. */
  lemma AddErrorsConcat(t: Table, p: string, a: seq<string>, b: seq<string>)
    ensures AddErrors(AddErrors(t, p, a), p, b) == AddErrors(t, p, a + b)
    ensures AddedCount(t, p, a) + AddedCount(AddErrors(t, p, a), p, b) == AddedCount(t, p, a + b)
  {
    var l := ListOf(t, p);
    AddAllUniqueConcat(l, a, b);
    if a == [] {
      assert a + b == b;
    } else if b == [] {
      assert a + b == a;
    } else {
      AddErrorsConcatNonEmpty(t, p, a, b);
    }
  }

  lemma AddErrorsConcatNonEmpty(t: Table, p: string, a: seq<string>, b: seq<string>)
    requires a != [] && b != []
    ensures ListOf(AddErrors(t, p, a), p) == AddAllUnique(ListOf(t, p), a)
    ensures AddErrors(AddErrors(t, p, a), p, b) == AddErrors(t, p, a + b)
  {
    var l := ListOf(t, p);
    AddAllUniqueConcat(l, a, b);
    var lab := AddAllUnique(l, a + b);
    assert |a + b| > 0;
    assert AddErrors(t, p, a + b) == t[p := lab];
  }

  // ---------------------------------------------------------------------
  // What Validate promises
  // ---------------------------------------------------------------------

  /**
   * A non-empty `es` leaves `p`'s list as the old list followed by each
   * message of `es` not already present, in order: that is, the
   * first occurrences of `old ++ es`. Old messages are never dropped.
   */
  lemma ValidateAccumulates(t: Table, p: string, es: seq<string>)
    requires WellFormed(t) && es != []
    ensures p in ValidateTable(t, p, es)
    ensures ListOf(t, p) <= ValidateTable(t, p, es)[p]
    ensures ValidateTable(t, p, es)[p] == FirstsBy(ListOf(t, p) + es, Identity)
  {
    AddAllUniqueIsFirstOccurrences(ListOf(t, p), es);
  }

  /** An empty `es` removes `p`'s entry, whether or not it was there. */
  lemma ValidateRemovesOnlyOnEmpty(t: Table, p: string, es: seq<string>)
    ensures p !in ValidateTable(t, p, es) <==> es == []
  {
    if es != [] {
      assert p in AddErrors(t, p, es);
    }
  }

  /** Every stored list stays non-empty and free of duplicates. */
  lemma ValidatePreservesWellFormed(t: Table, p: string, es: seq<string>)
    requires WellFormed(t)
    ensures WellFormed(ValidateTable(t, p, es))
  {
    if es != [] {
      AddAllUniqueMembers(ListOf(t, p), es);
      assert es[0] in AddAllUnique(ListOf(t, p), es);
    }
  }

  /** `Validate(p, ...)` leaves every other property's entry untouched. */
  lemma ValidateOnlyTouches(t: Table, p: string, es: seq<string>, q: string)
    requires q != p
    ensures q in ValidateTable(t, p, es) <==> q in t
    ensures q in t ==> ValidateTable(t, p, es)[q] == t[q]
  {
  }

  /**
   * `ErrorsChanged(p)` fires once per message actually appended: none at all
   * exactly when every message was already in `p`'s list.
   */
  lemma ValidateEventsCountNew(t: Table, p: string, es: seq<string>)
    requires es != []
    ensures |ValidateEvents(t, p, es)| == |ValidateTable(t, p, es)[p]| - |ListOf(t, p)|
    ensures forall i :: 0 <= i < |ValidateEvents(t, p, es)| ==> ValidateEvents(t, p, es)[i] == ErrorsChanged(p)
    ensures ValidateEvents(t, p, es) == [] <==> forall i :: 0 <= i < |es| ==> es[i] in ListOf(t, p)
  {
    var l := ListOf(t, p);
    var r := AddAllUnique(l, es);
    AddAllUniqueMembers(l, es);
    if forall i :: 0 <= i < |es| ==> es[i] in l {
      AddAllUniqueAbsorbs(l, es);
    }
    if |r| == |l| {
      assert l <= r;
      assert r == l;
    }
  }

  /** An empty `es` fires `ErrorsChanged(p)` once if an entry was removed, and nothing otherwise. */
  lemma ValidateEmptyEvents(t: Table, p: string)
    ensures ValidateEvents(t, p, []) == (if p in t then [ErrorsChanged(p)] else [])
    ensures p !in t ==> ValidateTable(t, p, []) == t
  {
  }

  /** Repeating the same `Validate(p, es)` leaves the table as it is and raises nothing. */
  lemma ValidateIdempotent(t: Table, p: string, es: seq<string>)
    requires WellFormed(t)
    ensures ValidateTable(ValidateTable(t, p, es), p, es) == ValidateTable(t, p, es)
    ensures ValidateEvents(ValidateTable(t, p, es), p, es) == []
  {
    if es != [] {
      var t' := ValidateTable(t, p, es);
      AddAllUniqueIdempotent(ListOf(t, p), es);
      assert ListOf(t', p) == AddAllUnique(ListOf(t, p), es);
      assert t'[p := AddAllUnique(ListOf(t', p), es)] == t';
    }
  }

  /** After `Validate(p, es)`, `GetErrors(p)` is null iff `es` was empty, and a list holding every message of `es` otherwise. */
  lemma GetErrorsAfterValidate(t: Table, p: string, es: seq<string>)
    requires p != ""
    ensures GetErrorsOf(ValidateTable(t, p, es), Some(p)) == Null <==> es == []
    ensures es != [] ==> forall i :: 0 <= i < |es| ==> es[i] in GetErrorsOf(ValidateTable(t, p, es), Some(p)).value
  {
    ValidateRemovesOnlyOnEmpty(t, p, es);
    AddAllUniqueMembers(ListOf(t, p), es);
  }

  /** Given the invariant, some property has errors iff the table has an entry. */
  lemma AnyErrorsIffNonEmpty(t: Table)
    ensures WellFormed(t) ==> (AnyErrors(t) <==> t != map[])
  {
    if WellFormed(t) && t != map[] {
      var p :| p in t;
      assert t[p] != [];
    }
  }
}
