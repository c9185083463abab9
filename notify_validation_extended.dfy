/**
 * `BaseNotifyValidationModelExtended`: the validation base class that also
 * takes data-annotation results into account, keeps a list of external
 * errors supplied by view models, and exposes all messages as `Errors`.
 *
 * The per-property table is the same `Table` as for the simpler class; the
 * results of `Validator.TryValidateObject` (attributes on unseen
 * subclasses) are the parameter `results`, the abstract indexer is the
 * parameter `indexer`, and the unspecified enumeration order of the
 * dictionary is the parameter `order`.
 */
module NotifyValidationExtended {
  import opened Wrappers
  import opened General
  import opened ErrorTable

  /** How much validation the object asks for; `None` switches validation off. */
  datatype ValidationLevel = None | Full

  /** A data-annotation failure: the members it concerns and its message. */
  datatype ValidationResult = ValidationResult(memberNames: seq<string>, errorMessage: string)

  /** The properties every validation and every change of the external errors raises `PropertyChanged` for. */
  const SummaryNames: seq<string> := ["Errors", "HasErrors"]

  /** The messages of the results whose member names contain `p`, in order. */
  function MessagesFor(results: seq<ValidationResult>, p: string): (r: seq<string>)
    ensures |r| <= |results|
    decreases |results|
  {
    if results == [] then []
    else
      var before := MessagesFor(results[..|results| - 1], p);
      var v := results[|results| - 1];
      if p in v.memberNames then before + [v.errorMessage] else before
  }

  /**
   * `MessagesFor` keeps exactly the messages of the results naming `p`: each
   * such message is in it, each of its messages comes from such a result,
   * and it is empty iff no result names `p`.
   */
  lemma {:induction false} MessagesForHolds(results: seq<ValidationResult>, p: string)
    ensures forall j :: 0 <= j < |results| && p in results[j].memberNames ==> results[j].errorMessage in MessagesFor(results, p)
    ensures forall i :: 0 <= i < |MessagesFor(results, p)| ==>
      exists j :: 0 <= j < |results| && p in results[j].memberNames && MessagesFor(results, p)[i] == results[j].errorMessage
    ensures MessagesFor(results, p) == [] <==> forall j :: 0 <= j < |results| ==> p !in results[j].memberNames
    decreases |results|
  {
    if results != [] {
      var init := results[..|results| - 1];
      MessagesForHolds(init, p);
      assert forall j :: 0 <= j < |init| ==> init[j] == results[j];
      var r := MessagesFor(results, p);
      var before := MessagesFor(init, p);
      var last := results[|results| - 1];
      assert r == if p in last.memberNames then before + [last.errorMessage] else before;
      forall i | 0 <= i < |r|
        ensures exists j :: 0 <= j < |results| && p in results[j].memberNames && r[i] == results[j].errorMessage
      {
        if i < |before| {
          var j :| 0 <= j < |init| && p in init[j].memberNames && before[i] == init[j].errorMessage;
          assert results[j] == init[j];
          assert r[i] == before[i];
          assert p in results[j].memberNames && r[i] == results[j].errorMessage;
        } else {
          assert p in last.memberNames && r[i] == last.errorMessage;
        }
      }
    } else {
      assert MessagesFor(results, p) == [];
    }
  }

  // ---------------------------------------------------------------------
  // The private Validate(propertyName, errors) and its folds
  // ---------------------------------------------------------------------

  /** The table after the private `Validate(p, errors)`: annotation messages first, then `errors`. */
  function ValidatePropertyTable(t: Table, level: ValidationLevel, results: seq<ValidationResult>, p: string, errors: seq<string>): Table {
    if level == None then t else ValidateTable(t, p, MessagesFor(results, p) + errors)
  }

  /** The events the private `Validate(p, errors)` raises. */
  function ValidatePropertyEvents(t: Table, level: ValidationLevel, results: seq<ValidationResult>, p: string, errors: seq<string>): seq<Event> {
    if level == None then []
    else ValidateEvents(t, p, MessagesFor(results, p) + errors) + PropertyChangedEach(SummaryNames)
  }

  /** The private `Validate` adds the annotation messages `a` and then `errors` `b`: together, one `Validate(p, a + b)`. */
  lemma ValidateInTwoSteps(t: Table, p: string, a: seq<string>, b: seq<string>)
    ensures b != [] ==>
      ValidateTable(t, p, a + b) == AddErrors(AddErrors(t, p, a), p, b) &&
      ValidateEvents(t, p, a + b) ==
        Repeat(ErrorsChanged(p), AddedCount(t, p, a)) + Repeat(ErrorsChanged(p), AddedCount(AddErrors(t, p, a), p, b))
    ensures b == [] && a != [] ==>
      ValidateTable(t, p, a + b) == AddErrors(t, p, a) &&
      ValidateEvents(t, p, a + b) == Repeat(ErrorsChanged(p), AddedCount(t, p, a))
    ensures a == [] ==> AddErrors(t, p, a) == t && Repeat(ErrorsChanged(p), AddedCount(t, p, a)) == []
    ensures a + b == [] && p !in t ==> ValidateTable(t, p, a + b) == t && ValidateEvents(t, p, a + b) == []
    ensures a + b == [] && p in t ==> ValidateTable(t, p, a + b) == t - {p} && ValidateEvents(t, p, a + b) == [ErrorsChanged(p)]
  {
    if b != [] {
      AddErrorsConcat(t, p, a, b);
      RepeatAdd(ErrorsChanged(p), AddedCount(t, p, a), AddedCount(AddErrors(t, p, a), p, b));
    } else {
      assert a + b == a;
    }
  }

  /**
   * With validation on, the entry of `p` goes away only when neither the
   * annotations nor `errors` report anything; the annotation messages and
   * `errors` all end up in `p`'s list otherwise, after the old ones.
   */
  lemma ValidatePropertyKeepsAnnotations(t: Table, results: seq<ValidationResult>, p: string, errors: seq<string>)
    ensures var t' := ValidatePropertyTable(t, Full, results, p, errors);
      p !in t' <==> MessagesFor(results, p) == [] && errors == []
    ensures var t' := ValidatePropertyTable(t, Full, results, p, errors);
      forall j :: 0 <= j < |results| && p in results[j].memberNames ==> p in t' && results[j].errorMessage in t'[p]
    ensures var t' := ValidatePropertyTable(t, Full, results, p, errors);
      errors != [] ==> p in t' && ListOf(t, p) <= t'[p] && forall i :: 0 <= i < |errors| ==> errors[i] in t'[p]
  {
    var es := MessagesFor(results, p) + errors;
    MessagesForHolds(results, p);
    AddAllUniqueMembers(ListOf(t, p), es);
    ValidateRemovesOnlyOnEmpty(t, p, es);
    if es != [] {
      forall j | 0 <= j < |results| && p in results[j].memberNames
        ensures results[j].errorMessage in es
      {
        var k :| 0 <= k < |MessagesFor(results, p)| && MessagesFor(results, p)[k] == results[j].errorMessage;
        assert es[k] == results[j].errorMessage;
      }
      forall i | 0 <= i < |errors| ensures errors[i] in es {
        assert es[|MessagesFor(results, p)| + i] == errors[i];
      }
    }
  }

  /**
   * With validation on, the events are one `ErrorsChanged(p)` per message
   * actually added (or one for a removed entry), then `Errors` and
   * `HasErrors`; with validation off, nothing happens at all.
   */
  lemma ValidatePropertyEventsShape(t: Table, level: ValidationLevel, results: seq<ValidationResult>, p: string, errors: seq<string>)
    ensures level == None ==>
      ValidatePropertyTable(t, level, results, p, errors) == t && ValidatePropertyEvents(t, level, results, p, errors) == []
    ensures level == Full ==>
      var ev := ValidatePropertyEvents(t, level, results, p, errors);
      |ev| >= 2 && ev[|ev| - 2..] == PropertyChangedEach(SummaryNames) &&
      forall i :: 0 <= i < |ev| - 2 ==> ev[i] == ErrorsChanged(p)
  {
    if level == Full {
      var es := MessagesFor(results, p) + errors;
      var ve := ValidateEvents(t, p, es);
      var ev := ve + PropertyChangedEach(SummaryNames);
      assert ev[|ev| - 2..] == PropertyChangedEach(SummaryNames);
      if es != [] {
        ValidateEventsCountNew(t, p, es);
      }
      assert forall i :: 0 <= i < |ev| - 2 ==> ev[i] == ve[i];
    }
  }

  /** The table after the private `Validate` for each name of `names` in turn. */
  function ValidateEachTable(t: Table, level: ValidationLevel, results: seq<ValidationResult>, names: seq<string>, indexer: string -> seq<string>): Table
    decreases |names|
  {
    if names == [] then t
    else
      var p := names[|names| - 1];
      ValidatePropertyTable(ValidateEachTable(t, level, results, names[..|names| - 1], indexer), level, results, p, indexer(p))
  }

  /**
   * The events of the same sequence of validations; with `notify` each is
   * preceded by `PropertyChanged` of its name (`NotifyPropertyChangedAndValidate`).
   */
  function ValidateEachLog(t: Table, level: ValidationLevel, results: seq<ValidationResult>, names: seq<string>, indexer: string -> seq<string>, notify: bool): seq<Event>
    decreases |names|
  {
    if names == [] then []
    else
      var init := names[..|names| - 1];
      var p := names[|names| - 1];
      ValidateEachLog(t, level, results, init, indexer, notify)
        + (if notify then [PropertyChanged(p)] else [])
        + ValidatePropertyEvents(ValidateEachTable(t, level, results, init, indexer), level, results, p, indexer(p))
  }

  lemma ValidateEachStep(t: Table, level: ValidationLevel, results: seq<ValidationResult>, names: seq<string>, i: nat, indexer: string -> seq<string>, notify: bool)
    requires i < |names|
    ensures ValidateEachTable(t, level, results, names[..i + 1], indexer) ==
      ValidatePropertyTable(ValidateEachTable(t, level, results, names[..i], indexer), level, results, names[i], indexer(names[i]))
    ensures ValidateEachLog(t, level, results, names[..i + 1], indexer, notify) ==
      ValidateEachLog(t, level, results, names[..i], indexer, notify)
        + (if notify then [PropertyChanged(names[i])] else [])
        + ValidatePropertyEvents(ValidateEachTable(t, level, results, names[..i], indexer), level, results, names[i], indexer(names[i]))
  {
    assert names[..i + 1][..i] == names[..i];
  }

  /** Properties not named keep their entries, and the table stays well formed. */
  lemma {:induction false} ValidateEachFrame(t: Table, level: ValidationLevel, results: seq<ValidationResult>, names: seq<string>, indexer: string -> seq<string>, q: string)
    requires WellFormed(t)
    requires q !in names
    ensures WellFormed(ValidateEachTable(t, level, results, names, indexer))
    ensures q in ValidateEachTable(t, level, results, names, indexer) <==> q in t
    ensures q in t ==> ValidateEachTable(t, level, results, names, indexer)[q] == t[q]
    decreases |names|
  {
    if names != [] {
      var init := names[..|names| - 1];
      var p := names[|names| - 1];
      assert q != p;
      assert q !in init;
      ValidateEachFrame(t, level, results, init, indexer, q);
      var t' := ValidateEachTable(t, level, results, init, indexer);
      if level == Full {
        ValidatePreservesWellFormed(t', p, MessagesFor(results, p) + indexer(p));
        ValidateOnlyTouches(t', p, MessagesFor(results, p) + indexer(p), q);
      }
    }
  }

  /** With validation off, a run of validations leaves the table alone and raises only the `PropertyChanged` of each name. */
  lemma {:induction false} ValidateEachWhenOff(t: Table, results: seq<ValidationResult>, names: seq<string>, indexer: string -> seq<string>, notify: bool)
    ensures ValidateEachTable(t, None, results, names, indexer) == t
    ensures ValidateEachLog(t, None, results, names, indexer, notify) == (if notify then PropertyChangedEach(names) else [])
    decreases |names|
  {
    if names != [] {
      ValidateEachWhenOff(t, results, names[..|names| - 1], indexer, notify);
    }
  }

  // ---------------------------------------------------------------------
  // Errors and HasErrors
  // ---------------------------------------------------------------------

  /** `order` lists every key of `t` exactly once: a dictionary enumeration order. */
  predicate IsEnumerationOf(order: seq<string>, t: Table) {
    NoDuplicates(order) &&
    (forall i :: 0 <= i < |order| ==> order[i] in t) &&
    (forall p :: p in t ==> p in order)
  }

  /** `Values.SelectMany(e => e)`: the lists of the properties in `order`, one after the other. */
  function Flatten(t: Table, order: seq<string>): seq<string>
    decreases |order|
  {
    if order == [] then [] else Flatten(t, order[..|order| - 1]) + ListOf(t, order[|order| - 1])
  }

  /** Some property's list holds `x`. */
  predicate Stored(t: Table, x: string) {
    exists p :: p in t && x in t[p]
  }

  /** What the `Errors` getter returns: the distinct stored messages, then each external error not already listed. */
  function ErrorList(t: Table, order: seq<string>, external: seq<string>): seq<string> {
    AddAllUnique(FirstsBy(Flatten(t, order), Identity), external)
  }

  /** `HasErrors`: an external error, or some property with a non-empty list. */
  predicate HasAnyErrors(t: Table, external: seq<string>) {
    |external| > 0 || AnyErrors(t)
  }

  lemma {:induction false} FlattenHolds(t: Table, order: seq<string>, x: string)
    ensures x in Flatten(t, order) <==> exists i :: 0 <= i < |order| && x in ListOf(t, order[i])
    decreases |order|
  {
    if order != [] {
      var init := order[..|order| - 1];
      FlattenHolds(t, init, x);
      if x in Flatten(t, init) {
        var i :| 0 <= i < |init| && x in ListOf(t, init[i]);
        assert order[i] == init[i];
      }
      if exists i :: 0 <= i < |order| && x in ListOf(t, order[i]) {
        var i :| 0 <= i < |order| && x in ListOf(t, order[i]);
        if i < |init| {
          assert init[i] == order[i];
        }
      }
    }
  }

  /** An empty dictionary flattens to nothing, whatever the order. */
  lemma {:induction false} FlattenOfEmpty(order: seq<string>)
    ensures Flatten(map[], order) == []
    decreases |order|
  {
    if order != [] {
      FlattenOfEmpty(order[..|order| - 1]);
    }
  }

  /** Under a complete enumeration, the flattened lists hold exactly the stored messages. */
  lemma FlattenIsStored(t: Table, order: seq<string>, x: string)
    requires IsEnumerationOf(order, t)
    ensures x in Flatten(t, order) <==> Stored(t, x)
  {
    FlattenHolds(t, order, x);
    if Stored(t, x) {
      var p :| p in t && x in t[p];
      var i :| 0 <= i < |order| && order[i] == p;
      assert x in ListOf(t, order[i]);
    }
  }

  /**
   * `Errors` is the first occurrence of every message of the stored lists
   * followed by the external errors: the lazy `Where` re-checks
   * `errors.Contains` as it adds, so a repeated external error is listed once.
   */
  lemma ErrorListIsFirstOccurrences(t: Table, order: seq<string>, external: seq<string>)
    ensures ErrorList(t, order, external) == FirstsBy(Flatten(t, order) + external, Identity)
    ensures NoDuplicates(ErrorList(t, order, external))
  {
    var flat := Flatten(t, order);
    assert [] + flat == flat;
    assert [] + (flat + external) == flat + external;
    AddAllUniqueIsFirstOccurrences([], flat);
    AddAllUniqueConcat([], flat, external);
    AddAllUniqueIsFirstOccurrences([], flat + external);
  }

  /** `Errors` holds exactly the stored messages and the external errors. */
  lemma ErrorListMembers(t: Table, order: seq<string>, external: seq<string>, x: string)
    requires IsEnumerationOf(order, t)
    ensures x in ErrorList(t, order, external) <==> Stored(t, x) || x in external
  {
    var flat := Flatten(t, order);
    var firsts := FirstsBy(flat, Identity);
    FlattenIsStored(t, order, x);
    FirstsByKeys(flat, Identity);
    IdentityKeys(flat);
    IdentityKeys(firsts);
    AddAllUniqueMembers(firsts, external);
    assert x in firsts <==> x in KeysOf(firsts, Identity);
    assert x in flat <==> x in KeysOf(flat, Identity);
    if x in external {
      var i :| 0 <= i < |external| && external[i] == x;
    }
  }

  /** Given the invariant, `Errors` is empty exactly when `HasErrors` is false. */
  lemma ErrorListEmptyIffNoErrors(t: Table, order: seq<string>, external: seq<string>)
    requires WellFormed(t) && IsEnumerationOf(order, t)
    ensures ErrorList(t, order, external) == [] <==> !HasAnyErrors(t, external)
  {
    var r := ErrorList(t, order, external);
    if HasAnyErrors(t, external) {
      if |external| > 0 {
        ErrorListMembers(t, order, external, external[0]);
      } else {
        var p :| p in t && t[p] != [];
        ErrorListMembers(t, order, external, t[p][0]);
      }
    } else {
      AnyErrorsIffNonEmpty(t);
      FlattenOfEmpty(order);
    }
  }

  class NotifyValidationModelExtended {
    var validationLevel: ValidationLevel
    /** Property name to its validation messages. */
    var allPropertyErrors: Table
    /** The collection the `Errors` getter last built. */
    var errors: Collection<string>
    /** `ExternalErrors`, the errors view models add and remove. */
    var externalErrors: seq<string>
    /** Every `PropertyChanged` and `ErrorsChanged` raised so far, oldest first. */
    var events: seq<Event>

    /** Every stored list is non-empty and holds no message twice. */
    ghost predicate Valid()
      reads this
    {
      WellFormed(allPropertyErrors)
    }

    constructor ()
      ensures Valid()
      ensures validationLevel == Full && allPropertyErrors == map[] && externalErrors == [] && events == []
      ensures fresh(errors) && errors.items == []
    {
      validationLevel := Full;
      allPropertyErrors := map[];
      errors := new Collection([]);
      externalErrors := [];
      events := [];
    }

    /** The `ValidationLevel` setter; it raises no event. */
    method SetValidationLevel(value: ValidationLevel)
      modifies this`validationLevel
      ensures validationLevel == value
    {
      if validationLevel != value {
        validationLevel := value;
      }
    }

    method NotifyPropertyChanged(propertyName: string)
      modifies this`events
      ensures events == old(events) + [PropertyChanged(propertyName)]
    {
      events := events + [PropertyChanged(propertyName)];
    }

    /** `NotifyPropertyChanged(params string[])`: one event per name, in order. */
    method NotifyPropertiesChanged(propertyNames: seq<string>)
      modifies this`events
      ensures events == old(events) + PropertyChangedEach(propertyNames)
    {
      for i := 0 to |propertyNames|
        invariant events == old(events) + PropertyChangedEach(propertyNames[..i])
      {
        assert propertyNames[..i + 1][..i] == propertyNames[..i];
        NotifyPropertyChanged(propertyNames[i]);
      }
      assert propertyNames[..|propertyNames|] == propertyNames;
    }

    method OnErrorsChanged(propertyName: string)
      modifies this`events
      ensures events == old(events) + [ErrorsChanged(propertyName)]
    {
      events := events + [ErrorsChanged(propertyName)];
    }

    /** Raises `PropertyChanged(p)`, then validates `p` against `this[p]`. */
    method NotifyPropertyChangedAndValidate(propertyName: string, results: seq<ValidationResult>, indexer: string -> seq<string>)
      requires Valid()
      modifies this`allPropertyErrors, this`events
      ensures Valid()
      ensures allPropertyErrors == ValidatePropertyTable(old(allPropertyErrors), validationLevel, results, propertyName, indexer(propertyName))
      ensures events == old(events) + [PropertyChanged(propertyName)]
        + ValidatePropertyEvents(old(allPropertyErrors), validationLevel, results, propertyName, indexer(propertyName))
    {
      NotifyPropertyChanged(propertyName);
      ValidateProperty(propertyName, indexer(propertyName), results);
    }

    /** The `params string[]` overload: one `NotifyPropertyChangedAndValidate` per name, in order. */
    method NotifyPropertyChangedAndValidateAll(propertyNames: seq<string>, results: seq<ValidationResult>, indexer: string -> seq<string>)
      requires Valid()
      modifies this`allPropertyErrors, this`events
      ensures Valid()
      ensures allPropertyErrors == ValidateEachTable(old(allPropertyErrors), validationLevel, results, propertyNames, indexer)
      ensures events == old(events) + ValidateEachLog(old(allPropertyErrors), validationLevel, results, propertyNames, indexer, true)
    {
      ghost var t0, e0 := allPropertyErrors, events;
      for i := 0 to |propertyNames|
        invariant Valid()
        invariant allPropertyErrors == ValidateEachTable(t0, validationLevel, results, propertyNames[..i], indexer)
        invariant events == e0 + ValidateEachLog(t0, validationLevel, results, propertyNames[..i], indexer, true)
      {
        ValidateEachStep(t0, validationLevel, results, propertyNames, i, indexer, true);
        var p := propertyNames[i];
        ConcatAssociative(e0, ValidateEachLog(t0, validationLevel, results, propertyNames[..i], indexer, true)
          + (if true then [PropertyChanged(p)] else []),
          ValidatePropertyEvents(allPropertyErrors, validationLevel, results, p, indexer(p)));
        ConcatAssociative(e0, ValidateEachLog(t0, validationLevel, results, propertyNames[..i], indexer, true),
          if true then [PropertyChanged(p)] else []);
        NotifyPropertyChangedAndValidate(p, results, indexer);
      }
      assert propertyNames[..|propertyNames|] == propertyNames;
    }

    /** `Validate(params string[])`: validates each named property against `this[p]`, without `PropertyChanged(p)`. */
    method Validate(propertyNames: seq<string>, results: seq<ValidationResult>, indexer: string -> seq<string>)
      requires Valid()
      modifies this`allPropertyErrors, this`events
      ensures Valid()
      ensures allPropertyErrors == ValidateEachTable(old(allPropertyErrors), validationLevel, results, propertyNames, indexer)
      ensures events == old(events) + ValidateEachLog(old(allPropertyErrors), validationLevel, results, propertyNames, indexer, false)
    {
      ghost var t0, e0 := allPropertyErrors, events;
      for i := 0 to |propertyNames|
        invariant Valid()
        invariant allPropertyErrors == ValidateEachTable(t0, validationLevel, results, propertyNames[..i], indexer)
        invariant events == e0 + ValidateEachLog(t0, validationLevel, results, propertyNames[..i], indexer, false)
      {
        ValidateEachStep(t0, validationLevel, results, propertyNames, i, indexer, false);
        var p := propertyNames[i];
        ghost var log := ValidateEachLog(t0, validationLevel, results, propertyNames[..i], indexer, false);
        assert log + (if false then [PropertyChanged(p)] else []) == log;
        ConcatAssociative(e0, log, ValidatePropertyEvents(allPropertyErrors, validationLevel, results, p, indexer(p)));
        ValidateProperty(p, indexer(p), results);
      }
      assert propertyNames[..|propertyNames|] == propertyNames;
    }

    /**
     * The private `Validate(propertyName, errors)`: unless validation is off,
     * adds the annotation messages for the property and then `errors`,
     * removes the entry when both are empty, and raises `PropertyChanged`
     * for `Errors` and `HasErrors`.
     */
    method ValidateProperty(propertyName: string, errors: seq<string>, results: seq<ValidationResult>)
      requires Valid()
      modifies this`allPropertyErrors, this`events
      ensures Valid()
      ensures allPropertyErrors == ValidatePropertyTable(old(allPropertyErrors), validationLevel, results, propertyName, errors)
      ensures events == old(events) + ValidatePropertyEvents(old(allPropertyErrors), validationLevel, results, propertyName, errors)
    {
      if validationLevel == None {
        return;
      }
      var propertyValidationResults := MessagesFor(results, propertyName);
      ghost var t0, e0 := allPropertyErrors, events;
      AddAnnotationsAndErrors(propertyName, propertyValidationResults, errors);
      ConcatAssociative(e0, ValidateEvents(t0, propertyName, propertyValidationResults + errors), PropertyChangedEach(SummaryNames));
      NotifyPropertiesChanged(SummaryNames);
    }

    /**
     * The middle of the private `Validate`: adds the annotation `messages`,
     * then `errors` if there are any, or else removes the entry when there
     * were no messages either.
     */
    method AddAnnotationsAndErrors(propertyName: string, messages: seq<string>, errors: seq<string>)
      requires Valid()
      modifies this`allPropertyErrors, this`events
      ensures Valid()
      ensures allPropertyErrors == ValidateTable(old(allPropertyErrors), propertyName, messages + errors)
      ensures events == old(events) + ValidateEvents(old(allPropertyErrors), propertyName, messages + errors)
    {
      ghost var t0, e0 := allPropertyErrors, events;
      ValidatePreservesWellFormed(t0, propertyName, messages + errors);
      ValidateInTwoSteps(t0, propertyName, messages, errors);
      AddValidationErrors(propertyName, messages);
      if errors != [] {
        AddValidationErrors(propertyName, errors);
        ConcatAssociative(e0, Repeat(ErrorsChanged(propertyName), AddedCount(t0, propertyName, messages)),
          Repeat(ErrorsChanged(propertyName), AddedCount(AddErrors(t0, propertyName, messages), propertyName, errors)));
      } else if |messages| == 0 && propertyName in allPropertyErrors {
        RemoveValidationError(propertyName);
      }
    }

    /** `errors.ForEach(e => AddValidationError(propertyName, e))`. */
    method AddValidationErrors(propertyName: string, errors: seq<string>)
      modifies this`allPropertyErrors, this`events
      ensures allPropertyErrors == AddErrors(old(allPropertyErrors), propertyName, errors)
      ensures events == old(events) + Repeat(ErrorsChanged(propertyName), AddedCount(old(allPropertyErrors), propertyName, errors))
    {
      ghost var t0, e0 := allPropertyErrors, events;
      for i := 0 to |errors|
        invariant allPropertyErrors == AddErrors(t0, propertyName, errors[..i])
        invariant events == e0 + Repeat(ErrorsChanged(propertyName), AddedCount(t0, propertyName, errors[..i]))
      {
        AddErrorsStep(t0, propertyName, errors, i);
        AddValidationError(propertyName, errors[i]);
      }
      assert errors[..|errors|] == errors;
    }

    /** Appends `error` to the property's list unless it is there, raising `ErrorsChanged` if it was added. */
    method AddValidationError(propertyName: string, error: string)
      modifies this`allPropertyErrors, this`events
      ensures allPropertyErrors == AddError(old(allPropertyErrors), propertyName, error)
      ensures events == old(events) +
        (if error in ListOf(old(allPropertyErrors), propertyName) then [] else [ErrorsChanged(propertyName)])
    {
      if propertyName in allPropertyErrors {
        if error !in allPropertyErrors[propertyName] {
          allPropertyErrors := allPropertyErrors[propertyName := allPropertyErrors[propertyName] + [error]];
          OnErrorsChanged(propertyName);
        } else {
          assert AddUnique(ListOf(allPropertyErrors, propertyName), error) == allPropertyErrors[propertyName];
          assert allPropertyErrors[propertyName := allPropertyErrors[propertyName]] == allPropertyErrors;
        }
      } else {
        assert AddUnique(ListOf(allPropertyErrors, propertyName), error) == [error];
        allPropertyErrors := allPropertyErrors[propertyName := [error]];
        OnErrorsChanged(propertyName);
      }
    }

    /** Drops the property's entry and raises `ErrorsChanged`. */
    method RemoveValidationError(propertyName: string)
      modifies this`allPropertyErrors, this`events
      ensures allPropertyErrors == old(allPropertyErrors) - {propertyName}
      ensures events == old(events) + [ErrorsChanged(propertyName)]
    {
      allPropertyErrors := allPropertyErrors - {propertyName};
      OnErrorsChanged(propertyName);
    }

    /** `ExternalErrors.Add(error)`; the collection-changed handler raises `Errors` and `HasErrors`. */
    method AddExternalError(error: string)
      modifies this`externalErrors, this`events
      ensures externalErrors == old(externalErrors) + [error]
      ensures events == old(events) + PropertyChangedEach(SummaryNames)
    {
      externalErrors := externalErrors + [error];
      NotifyPropertiesChanged(SummaryNames);
    }

    /**
     * `ExternalErrors.Remove(error)`: drops the first occurrence; the
     * collection raises no change, so no event, when there was none.
     */
    method RemoveExternalError(error: string) returns (removed: bool)
      modifies this`externalErrors, this`events
      ensures removed == (error in old(externalErrors))
      ensures externalErrors == RemoveFirst(old(externalErrors), error)
      ensures events == old(events) + (if removed then PropertyChangedEach(SummaryNames) else [])
    {
      removed := error in externalErrors;
      externalErrors := RemoveFirst(externalErrors, error);
      if removed {
        NotifyPropertiesChanged(SummaryNames);
      }
    }

    /**
     * The `Errors` getter: builds a new collection from the distinct stored
     * messages (in the dictionary's enumeration `order`), then adds each
     * external error not yet in it, and keeps it in `errors`.
     */
    method Errors(order: seq<string>) returns (r: Collection<string>)
      requires IsEnumerationOf(order, allPropertyErrors)
      modifies this`errors
      ensures fresh(r) && errors == r
      ensures r.items == ErrorList(allPropertyErrors, order, externalErrors)
    {
      r := new Collection([]);
      var allErrors := Flatten(allPropertyErrors, order);
      var distinct := DistinctBy(allErrors, Identity);
      AddAll(r, distinct);
      assert r.items == distinct;
      AddEachMissing(r, externalErrors);
      errors := r;
    }

    /**
     * `GetErrors`, on the current table: an empty list for a null or empty
     * name, null for a property without an entry, its list otherwise.
     */
    function GetErrors(propertyName: Option<string>): (r: Option<seq<string>>)
      reads this
      ensures propertyName == Null || propertyName == Some("") ==> r == Some([])
      ensures propertyName != Null && propertyName != Some("") ==>
        (r == Null <==> propertyName.value !in allPropertyErrors)
      ensures propertyName != Null && propertyName != Some("") && r != Null ==>
        r.value == allPropertyErrors[propertyName.value]
    {
      GetErrorsOf(allPropertyErrors, propertyName)
    }

    /**
     * `HasErrors`: there is an external error or a property with a non-empty
     * list; for a valid model, an external error or an entry.
     */
    function HasErrors(): (r: bool)
      reads this
      ensures r <==> HasAnyErrors(allPropertyErrors, externalErrors)
      ensures Valid() ==> (r <==> externalErrors != [] || allPropertyErrors != map[])
    {
      AnyErrorsIffNonEmpty(allPropertyErrors);
      HasAnyErrors(allPropertyErrors, externalErrors)
    }
  }
}
