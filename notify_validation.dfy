/**
 * `BaseNotifyValidationModel`: a data model that keeps, per property, the
 * list of its validation messages (the `INotifyDataErrorInfo` side) and raises
 * `ErrorsChanged` and `PropertyChanged` events.
 *
 * The dictionary is the field `allPropertyErrors`, updated in place; raised
 * events are appended to the log `events`. The abstract indexer
 * `this[propertyName]`, implemented by unseen subclasses, is the parameter
 * `indexer`.
 */
module NotifyValidation {
  import opened Wrappers
  import opened General
  import opened ErrorTable

  /** The table after `NotifyPropertyChangedAndValidate` for each name of `names` in turn. */
  function NotifyAndValidateTable(t: Table, names: seq<string>, indexer: string -> seq<string>): Table
    decreases |names|
  {
    if names == [] then t
    else
      var p := names[|names| - 1];
      ValidateTable(NotifyAndValidateTable(t, names[..|names| - 1], indexer), p, indexer(p))
  }

  /** The events raised by `NotifyPropertyChangedAndValidate` for each name of `names` in turn. */
  function NotifyAndValidateLog(t: Table, names: seq<string>, indexer: string -> seq<string>): seq<Event>
    decreases |names|
  {
    if names == [] then []
    else
      var init := names[..|names| - 1];
      var p := names[|names| - 1];
      NotifyAndValidateLog(t, init, indexer) + [PropertyChanged(p)]
        + ValidateEvents(NotifyAndValidateTable(t, init, indexer), p, indexer(p))
  }

  lemma NotifyAndValidateEachStep(t: Table, names: seq<string>, i: nat, indexer: string -> seq<string>)
    requires i < |names|
    ensures NotifyAndValidateTable(t, names[..i + 1], indexer) ==
      ValidateTable(NotifyAndValidateTable(t, names[..i], indexer), names[i], indexer(names[i]))
    ensures NotifyAndValidateLog(t, names[..i + 1], indexer) ==
      NotifyAndValidateLog(t, names[..i], indexer) + [PropertyChanged(names[i])]
        + ValidateEvents(NotifyAndValidateTable(t, names[..i], indexer), names[i], indexer(names[i]))
  {
    assert names[..i + 1][..i] == names[..i];
  }

  /** Properties not named are left as they were, and the table stays well formed. */
  lemma {:induction false} NotifyAndValidateEachFrame(t: Table, names: seq<string>, indexer: string -> seq<string>, q: string)
    requires WellFormed(t)
    requires q !in names
    ensures WellFormed(NotifyAndValidateTable(t, names, indexer))
    ensures q in NotifyAndValidateTable(t, names, indexer) <==> q in t
    ensures q in t ==> NotifyAndValidateTable(t, names, indexer)[q] == t[q]
    decreases |names|
  {
    if names != [] {
      var init := names[..|names| - 1];
      var p := names[|names| - 1];
      assert q != p;
      assert q !in init;
      NotifyAndValidateEachFrame(t, init, indexer, q);
      var t' := NotifyAndValidateTable(t, init, indexer);
      ValidatePreservesWellFormed(t', p, indexer(p));
      ValidateOnlyTouches(t', p, indexer(p), q);
    }
  }

  class NotifyValidationModel {
    /** Property name to its validation messages. */
    var allPropertyErrors: Table
    /** Every `PropertyChanged` and `ErrorsChanged` raised so far, oldest first. */
    var events: seq<Event>

    /** Every stored list is non-empty and holds no message twice. */
    ghost predicate Valid()
      reads this
    {
      WellFormed(allPropertyErrors)
    }

    constructor ()
      ensures Valid() && allPropertyErrors == map[] && events == []
    {
      allPropertyErrors := map[];
      events := [];
    }

    method NotifyPropertyChanged(propertyName: string)
      modifies this
      ensures allPropertyErrors == old(allPropertyErrors)
      ensures events == old(events) + [PropertyChanged(propertyName)]
    {
      events := events + [PropertyChanged(propertyName)];
    }

    method OnErrorsChanged(propertyName: string)
      modifies this
      ensures allPropertyErrors == old(allPropertyErrors)
      ensures events == old(events) + [ErrorsChanged(propertyName)]
    {
      events := events + [ErrorsChanged(propertyName)];
    }

    /** Raises `PropertyChanged(p)`, then validates `p` against `this[p]`. */
    method NotifyPropertyChangedAndValidate(propertyName: string, indexer: string -> seq<string>)
      requires Valid()
      modifies this
      ensures Valid()
      ensures allPropertyErrors == ValidateTable(old(allPropertyErrors), propertyName, indexer(propertyName))
      ensures events == old(events) + [PropertyChanged(propertyName)]
                        + ValidateEvents(old(allPropertyErrors), propertyName, indexer(propertyName))
    {
      NotifyPropertyChanged(propertyName);
      Validate(propertyName, indexer(propertyName));
    }

    /** The `params string[]` overload: one `NotifyPropertyChangedAndValidate` per name, in order. */
    method NotifyPropertyChangedAndValidateAll(propertyNames: seq<string>, indexer: string -> seq<string>)
      requires Valid()
      modifies this
      ensures Valid()
      ensures allPropertyErrors == NotifyAndValidateTable(old(allPropertyErrors), propertyNames, indexer)
      ensures events == old(events) + NotifyAndValidateLog(old(allPropertyErrors), propertyNames, indexer)
    {
      ghost var t0, e0 := allPropertyErrors, events;
      for i := 0 to |propertyNames|
        invariant Valid()
        invariant allPropertyErrors == NotifyAndValidateTable(t0, propertyNames[..i], indexer)
        invariant events == e0 + NotifyAndValidateLog(t0, propertyNames[..i], indexer)
      {
        NotifyAndValidateEachStep(t0, propertyNames, i, indexer);
        var p := propertyNames[i];
        ghost var log := NotifyAndValidateLog(t0, propertyNames[..i], indexer);
        ConcatAssociative(e0, log + [PropertyChanged(p)], ValidateEvents(allPropertyErrors, p, indexer(p)));
        ConcatAssociative(e0, log, [PropertyChanged(p)]);
        NotifyPropertyChangedAndValidate(p, indexer);
      }
      assert propertyNames[..|propertyNames|] == propertyNames;
    }

    /**
     * Adds the messages of a non-empty `errors` to `propertyName`'s list, or
     * removes the property's entry when `errors` is empty.
     */
    method Validate(propertyName: string, errors: seq<string>)
      requires Valid()
      modifies this
      ensures Valid()
      ensures allPropertyErrors == ValidateTable(old(allPropertyErrors), propertyName, errors)
      ensures events == old(events) + ValidateEvents(old(allPropertyErrors), propertyName, errors)
    {
      ValidatePreservesWellFormed(allPropertyErrors, propertyName, errors);
      if errors != [] {
        AddValidationErrors(propertyName, errors);
      } else if propertyName in allPropertyErrors {
        RemoveValidationError(propertyName);
      }
    }

    /** `errors.ForEach(e => AddValidationError(propertyName, e))`. */
    method AddValidationErrors(propertyName: string, errors: seq<string>)
      modifies this
      ensures allPropertyErrors == AddErrors(old(allPropertyErrors), propertyName, errors)
      ensures events == old(events) + Repeat(ErrorsChanged(propertyName), AddedCount(old(allPropertyErrors), propertyName, errors))
    {
      ghost var t0, e0 := allPropertyErrors, events;
      for i := 0 to |errors|
        invariant allPropertyErrors == AddErrors(t0, propertyName, errors[..i])
        invariant events == e0 + Repeat(ErrorsChanged(propertyName), AddedCount(t0, propertyName, errors[..i]))
      {
        AddErrorsStep(t0, propertyName, errors, i);
        AddValidationError(propertyName, errors[i]);
      }
      assert errors[..|errors|] == errors;
    }

    /** Appends `error` to the property's list unless it is there, raising `ErrorsChanged` if it was added. */
    method AddValidationError(propertyName: string, error: string)
      modifies this
      ensures allPropertyErrors == AddError(old(allPropertyErrors), propertyName, error)
      ensures events == old(events) +
        (if error in ListOf(old(allPropertyErrors), propertyName) then [] else [ErrorsChanged(propertyName)])
    {
      if propertyName in allPropertyErrors {
        if error !in allPropertyErrors[propertyName] {
          allPropertyErrors := allPropertyErrors[propertyName := allPropertyErrors[propertyName] + [error]];
          OnErrorsChanged(propertyName);
        } else {
          assert AddUnique(ListOf(allPropertyErrors, propertyName), error) == allPropertyErrors[propertyName];
          assert allPropertyErrors[propertyName := allPropertyErrors[propertyName]] == allPropertyErrors;
        }
      } else {
        assert AddUnique(ListOf(allPropertyErrors, propertyName), error) == [error];
        allPropertyErrors := allPropertyErrors[propertyName := [error]];
        OnErrorsChanged(propertyName);
      }
    }

    /** Drops the property's entry and raises `ErrorsChanged`. */
    method RemoveValidationError(propertyName: string)
      modifies this
      ensures allPropertyErrors == old(allPropertyErrors) - {propertyName}
      ensures events == old(events) + [ErrorsChanged(propertyName)]
    {
      allPropertyErrors := allPropertyErrors - {propertyName};
      OnErrorsChanged(propertyName);
    }

    /**
     * `GetErrors`, on the current table: an empty list for a null or empty
     * name, null for a property without an entry, its list otherwise.
     */
    function GetErrors(propertyName: Option<string>): (r: Option<seq<string>>)
      reads this
      ensures propertyName == Null || propertyName == Some("") ==> r == Some([])
      ensures propertyName != Null && propertyName != Some("") ==>
        (r == Null <==> propertyName.value !in allPropertyErrors)
      ensures propertyName != Null && propertyName != Some("") && r != Null ==>
        r.value == allPropertyErrors[propertyName.value]
    {
      GetErrorsOf(allPropertyErrors, propertyName)
    }

    /** `HasErrors`: some property has a non-empty list, which for a valid model means some property has an entry. */
    function HasErrors(): (r: bool)
      reads this
      ensures r <==> AnyErrors(allPropertyErrors)
      ensures Valid() ==> (r <==> allPropertyErrors != map[])
    {
      AnyErrorsIffNonEmpty(allPropertyErrors);
      AnyErrors(allPropertyErrors)
    }
  }

  /** Validating one property with an error and then clearing it raises one event each time. */
  method ValidateThenClearScenario() {
    var model := new NotifyValidationModel();
    model.Validate("Price", ["must be positive"]);
    assert "Price" in model.allPropertyErrors;
    assert model.HasErrors();
    model.Validate("Price", []);
    assert model.allPropertyErrors == map[];
    AnyErrorsIffNonEmpty(model.allPropertyErrors);
    assert !model.HasErrors();
    assert model.events == [ErrorsChanged("Price"), ErrorsChanged("Price")];
  }
}
