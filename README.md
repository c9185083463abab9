# Validation models, extensions, numeric text box and converters

A Dafny model of the core of the CompanyName.ApplicationName WPF sample. It
covers six parts of the application.

- The two validation base classes, `BaseNotifyValidationModel` and
  `BaseNotifyValidationModelExtended`. Each keeps a table from property name
  to its list of validation messages and raises `ErrorsChanged` and
  `PropertyChanged` events. The extended class also:
  - takes data-annotation results into account;
  - can be switched off with a `ValidationLevel`;
  - keeps a list of external errors supplied by view models;
  - exposes every message as `Errors`.
- The collection and string extension methods in `General.cs`.
- The numeric-only text box behaviour in `TextBoxProperties.cs`. It refuses
  typed text, pasted text and keys that would leave the box with a text that
  does not match `^-?\d*\.?\d*$`.
- The two "Extended" product view models. They keep product names unique by
  adding or removing one external error on the current product.
- Three value converters: `HigherLowerConverter`,
  `FeedbackTypeToImageSourceConverter` and `StringToFirstLetterConverter`.

## Modules

| file | module | contents |
|---|---|---|
| `wrappers.dfy` | `Wrappers` | `Option`, which stands for a .NET reference that may be null |
| `general.dfy` | `General` | the extension methods, and the sequence functions they are proved against |
| `error_table.dfy` | `ErrorTable` | the property-to-messages table and the events validation raises, as functions, with their lemmas |
| `notify_validation.dfy` | `NotifyValidation` | class `NotifyValidationModel`, for `BaseNotifyValidationModel` |
| `notify_validation_extended.dfy` | `NotifyValidationExtended` | class `NotifyValidationModelExtended`, for `BaseNotifyValidationModelExtended`, with the specification of `Errors` and `HasErrors` |
| `text_box.dfy` | `TextBoxProperties` | the pattern recogniser, `GetFullText` and the three event handlers |
| `product_view_models.dfy` | `ProductViewModels` | products, the name-uniqueness rule and the two view models |
| `converters.dfy` | `Converters` | the three converters over a model of .NET `object` |

Some parts of the source change state in place. The two validation classes,
the collections, the `StringBuilder`, the event arguments and the view models
are therefore Dafny classes whose methods state their whole new state. Each
method's postcondition ties the new state to a specification function of the
old one, and lemmas state what those functions promise. Raised events are
appended to a field `events`, so "which events were raised, in which order"
is part of each method's contract. The `Validate` methods of both classes,
`AddValidationErrors`, the `params` overloads, `DistinctBy`, `Count`,
`RemoveAll` and the `Where(...).ForEach(Add)` step of `Errors`
(`AddEachMissing`) are loops that are proved against those functions.

## Model

| member | source | states |
|---|---|---|
| General.Add | CompanyName.ApplicationName.Extensions/General.cs:25-29 | the result is the collection followed by the item: one longer, the old items first, the item last |
| General.Collection.Add | CompanyName.ApplicationName.Extensions/General.cs:50 | `ICollection.Add` appends the item after the old items |
| General.AddAll | CompanyName.ApplicationName.Extensions/General.cs:37-40 | the collection ends up as its old items followed by every item of the range, in order |
| General.AddRange | CompanyName.ApplicationName.Extensions/General.cs:48-51 | the collection ends up as its old items followed by every item of the range, in order |
| General.AddUniqueIfNotEmpty | CompanyName.ApplicationName.Extensions/General.cs:58-61 | a null or empty text leaves the collection alone; any other text is appended exactly when it is not already present |
| General.AddUnique | CompanyName.ApplicationName.Extensions/General.cs:60 | the element is present afterwards; the list is unchanged if it was present, otherwise the element is appended |
| General.AppendUniqueOnNewLineIfNotEmpty | CompanyName.ApplicationName.Extensions/General.cs:68-71 | the builder's content becomes `AppendUniqueLine` of the old content: unchanged for a blank text or one already contained; otherwise the text is appended, after a new line unless the content is blank |
| General.AppendUniqueLineContains | CompanyName.ApplicationName.Extensions/General.cs:70 | after appending a non-blank text, the content contains it and still starts with the old content |
| General.AppendUniqueLineIdempotent | CompanyName.ApplicationName.Extensions/General.cs:70 | appending the same text a second time changes nothing |
| General.Count | CompanyName.ApplicationName.Extensions/General.cs:78-83 | the counting loop returns the number of items |
| General.RemoveAll | CompanyName.ApplicationName.Extensions/General.cs:118-121 | the collection loses the first remaining copy of each item of the range, in turn |
| General.RemoveEachIsSubsequence | CompanyName.ApplicationName.Extensions/General.cs:118-121 | what remains is the old collection with some items deleted: the other items keep their order |
| General.RemoveEachMultiset | CompanyName.ApplicationName.Extensions/General.cs:118-121 | the removal takes away exactly the range as a multiset: the multiset difference of the old items and the range |
| General.RemoveFirst | CompanyName.ApplicationName.Extensions/General.cs:120 | `ICollection.Remove`: an absent item changes nothing; otherwise the result is one shorter and is the old multiset minus one copy of the item |
| General.RemoveFirstDropsFirstCopy | CompanyName.ApplicationName.Extensions/General.cs:120 | the copy removed is the first one: the result is the elements before it followed by the elements after it |
| General.RemoveFirstIsSubsequence | CompanyName.ApplicationName.Extensions/General.cs:120 | removing an item keeps the other elements in their order |
| General.Collection.Remove | CompanyName.ApplicationName.Extensions/General.cs:120 | reports whether the item was present and removes its first copy |
| General.ToObservableCollection | CompanyName.ApplicationName.Extensions/General.cs:129-132 | a new collection holding the input's items in order |
| General.DistinctBy | CompanyName.ApplicationName.Extensions/General.cs:145-152 | the loop with the set of seen keys yields `FirstsBy`: the elements whose key has not appeared earlier, in source order |
| General.FirstsByKeys | CompanyName.ApplicationName.Extensions/General.cs:145-152 | `DistinctBy` keeps every key of the source, and no other |
| General.FirstsByKeysDistinct | CompanyName.ApplicationName.Extensions/General.cs:145-152 | no two elements of the result share a key |
| General.FirstsByIsSubsequence | CompanyName.ApplicationName.Extensions/General.cs:145-152 | the result is a subsequence of the source, so the source order is kept |
| General.FirstsByKeepsFirstOccurrences | CompanyName.ApplicationName.Extensions/General.cs:145-152 | every element that is the first of its key in the source is in the result |
| General.FirstsByOnlyFirstOccurrences | CompanyName.ApplicationName.Extensions/General.cs:145-152 | every element of the result is the first occurrence of its key in the source |
| General.FirstsByOfDuplicateFree | CompanyName.ApplicationName.Extensions/General.cs:145-152 | `Distinct` of a duplicate-free sequence is the sequence itself |
| General.AddAllUnique | CompanyName.ApplicationName.DataModels/BaseNotifyValidationModelExtended.cs:61 | adding the items not already present keeps the old list as a prefix and keeps a duplicate-free list duplicate-free |
| General.AddAllUniqueMembers | CompanyName.ApplicationName.DataModels/BaseNotifyValidationModelExtended.cs:61 | every added item ends up in the list, and the list holds nothing but old items and added ones |
| General.AddEachMissing | CompanyName.ApplicationName.DataModels/BaseNotifyValidationModelExtended.cs:61 | the loop adding each item the collection does not yet contain leaves it equal to `AddAllUnique` of its old items and the range |
| General.AddAllUniqueIsFirstOccurrences | CompanyName.ApplicationName.DataModels/BaseNotifyValidationModelExtended.cs:60-61 | on a duplicate-free list, adding the external errors not already present equals `Distinct` of the list followed by the external errors |
| General.AddAllUniqueConcat | CompanyName.ApplicationName.DataModels/BaseNotifyValidationModelExtended.cs:61 | adding `a` and then `b` one item at a time equals adding `a + b` |
| General.AddAllUniqueIdempotent | CompanyName.ApplicationName.DataModels/BaseNotifyValidationModelExtended.cs:61 | adding the same items twice gives the same list as adding them once |
| ErrorTable.ValidateAccumulates | CompanyName.ApplicationName.DataModels/BaseNotifyValidationModel.cs:55-76 | validating with messages keeps the property's old messages as a prefix; the new list is the old one followed by the new messages, without duplicates |
| ErrorTable.ValidateRemovesOnlyOnEmpty | CompanyName.ApplicationName.DataModels/BaseNotifyValidationModel.cs:55-59 | after validation the property has no entry exactly when the messages were empty |
| ErrorTable.ValidatePreservesWellFormed | CompanyName.ApplicationName.DataModels/BaseNotifyValidationModel.cs:55-82 | validation keeps every stored list non-empty and free of duplicates |
| ErrorTable.ValidateOnlyTouches | CompanyName.ApplicationName.DataModels/BaseNotifyValidationModel.cs:55-82 | validating one property leaves every other property's entry as it was |
| ErrorTable.ValidateEventsCountNew | CompanyName.ApplicationName.DataModels/BaseNotifyValidationModel.cs:61-76 | with messages, one `ErrorsChanged(p)` is raised per message actually added, and none when all were already present |
| ErrorTable.ValidateEmptyEvents | CompanyName.ApplicationName.DataModels/BaseNotifyValidationModel.cs:55-59 | with no messages, one `ErrorsChanged` is raised iff an entry was removed, and a missing entry leaves the table unchanged |
| ErrorTable.ValidateIdempotent | CompanyName.ApplicationName.DataModels/BaseNotifyValidationModel.cs:55-76 | validating twice with the same messages gives the same table, and the second time raises nothing |
| ErrorTable.AddErrorsConcat | CompanyName.ApplicationName.DataModels/BaseNotifyValidationModel.cs:57 | adding messages in two batches equals adding them in one, and raises as many events |
| ErrorTable.RepeatAdd | CompanyName.ApplicationName.DataModels/BaseNotifyValidationModel.cs:57 | helper for counting events: two runs of the same event concatenate into one run of the summed length |
| ErrorTable.GetErrorsOf | CompanyName.ApplicationName.DataModels/BaseNotifyValidationModel.cs:102-108 | null or empty names give an empty list; an unknown name gives null; otherwise the stored list |
| ErrorTable.GetErrorsAfterValidate | CompanyName.ApplicationName.DataModels/BaseNotifyValidationModel.cs:102-108 | after validating a named property, `GetErrors` returns null exactly when it was validated with no messages, and otherwise lists every message |
| ErrorTable.AnyErrorsIffNonEmpty | CompanyName.ApplicationName.DataModels/BaseNotifyValidationModel.cs:113 | on a well-formed table (the kind validation produces), `HasErrors` holds exactly when the table has an entry |
| NotifyValidation.NotifyValidationModel.constructor | CompanyName.ApplicationName.DataModels/BaseNotifyValidationModel.cs:19 | a new model has an empty table and has raised nothing |
| NotifyValidation.NotifyValidationModel.NotifyPropertyChangedAndValidateAll | CompanyName.ApplicationName.DataModels/BaseNotifyValidationModel.cs:35-38 | the loop validates each name in order: the table and the event log are the fold of the single-name operation over the names |
| NotifyValidation.NotifyAndValidateEachFrame | CompanyName.ApplicationName.DataModels/BaseNotifyValidationModel.cs:35-38 | names that are not validated keep their entries, and the table stays well formed |
| NotifyValidation.NotifyValidationModel.NotifyPropertyChangedAndValidate | CompanyName.ApplicationName.DataModels/BaseNotifyValidationModel.cs:44-48 | raises `PropertyChanged(p)` and then validates `p` against the indexer's messages |
| NotifyValidation.NotifyValidationModel.Validate | CompanyName.ApplicationName.DataModels/BaseNotifyValidationModel.cs:55-59 | the table becomes `ValidateTable` of the old one, the raised events are `ValidateEvents`, and the table stays well formed |
| NotifyValidation.NotifyValidationModel.AddValidationErrors | CompanyName.ApplicationName.DataModels/BaseNotifyValidationModel.cs:57 | the loop adds each message in turn, raising one `ErrorsChanged` per message actually added |
| NotifyValidation.NotifyValidationModel.AddValidationError | CompanyName.ApplicationName.DataModels/BaseNotifyValidationModel.cs:61-76 | appends the message unless it is already there, creates the entry if missing, and raises `ErrorsChanged` only when something was added |
| NotifyValidation.NotifyValidationModel.RemoveValidationError | CompanyName.ApplicationName.DataModels/BaseNotifyValidationModel.cs:78-82 | drops the entry and raises `ErrorsChanged` |
| NotifyValidation.NotifyValidationModel.OnErrorsChanged | CompanyName.ApplicationName.DataModels/BaseNotifyValidationModel.cs:95 | appends one `ErrorsChanged` and leaves the table alone |
| NotifyValidation.NotifyValidationModel.NotifyPropertyChanged | CompanyName.ApplicationName.DataModels/BaseNotifyValidationModel.cs:137-140 | appends one `PropertyChanged` and leaves the table alone |
| NotifyValidation.NotifyValidationModel.GetErrors | CompanyName.ApplicationName.DataModels/BaseNotifyValidationModel.cs:102-108 | an empty list for a null or empty name; null for a property without an entry; otherwise the property's list |
| NotifyValidation.NotifyValidationModel.HasErrors | CompanyName.ApplicationName.DataModels/BaseNotifyValidationModel.cs:113 | some property has a non-empty list; on a valid model, exactly when some property has an entry |
| NotifyValidationExtended.NotifyValidationModelExtended.constructor | CompanyName.ApplicationName.DataModels/BaseNotifyValidationModelExtended.cs:22-35 | a new model validates fully, has no messages and no external errors, and has raised nothing |
| NotifyValidationExtended.NotifyValidationModelExtended.SetValidationLevel | CompanyName.ApplicationName.DataModels/BaseNotifyValidationModelExtended.cs:40-44 | the level becomes the given value and nothing else changes |
| NotifyValidationExtended.NotifyValidationModelExtended.Errors | CompanyName.ApplicationName.DataModels/BaseNotifyValidationModelExtended.cs:54-64 | builds a fresh collection, stores it in `errors` and returns it: the distinct stored messages, then the external errors not already there |
| NotifyValidationExtended.ErrorListIsFirstOccurrences | CompanyName.ApplicationName.DataModels/BaseNotifyValidationModelExtended.cs:54-64 | `Errors` is `Distinct` of all stored messages followed by the external errors, and has no duplicates |
| NotifyValidationExtended.ErrorListMembers | CompanyName.ApplicationName.DataModels/BaseNotifyValidationModelExtended.cs:54-64 | a message is in `Errors` exactly when some property stores it or it is an external error |
| NotifyValidationExtended.FlattenIsStored | CompanyName.ApplicationName.DataModels/BaseNotifyValidationModelExtended.cs:59 | flattening the dictionary's values in any enumeration order gives exactly the stored messages |
| NotifyValidationExtended.FlattenHolds | CompanyName.ApplicationName.DataModels/BaseNotifyValidationModelExtended.cs:59 | a message is in the flattening exactly when the list of some enumerated property holds it |
| NotifyValidationExtended.ErrorListEmptyIffNoErrors | CompanyName.ApplicationName.DataModels/BaseNotifyValidationModelExtended.cs:184 | `Errors` is empty exactly when `HasErrors` is false |
| NotifyValidationExtended.NotifyValidationModelExtended.GetErrors | CompanyName.ApplicationName.DataModels/BaseNotifyValidationModelExtended.cs:173-179 | an empty list for a null or empty name; null for a property without an entry; otherwise the property's list |
| NotifyValidationExtended.NotifyValidationModelExtended.HasErrors | CompanyName.ApplicationName.DataModels/BaseNotifyValidationModelExtended.cs:184 | an external error or a property with a non-empty list; on a valid model, exactly when there is an external error or an entry |
| NotifyValidationExtended.NotifyValidationModelExtended.NotifyPropertyChangedAndValidateAll | CompanyName.ApplicationName.DataModels/BaseNotifyValidationModelExtended.cs:85-88 | the loop raises `PropertyChanged` and validates each name in order; table and log are the fold over the names |
| NotifyValidationExtended.NotifyValidationModelExtended.NotifyPropertyChangedAndValidate | CompanyName.ApplicationName.DataModels/BaseNotifyValidationModelExtended.cs:94-98 | raises `PropertyChanged(p)` and then runs the private validation of `p` against the indexer's messages |
| NotifyValidationExtended.NotifyValidationModelExtended.Validate | CompanyName.ApplicationName.DataModels/BaseNotifyValidationModelExtended.cs:104-107 | the loop runs the private validation for each name in order, without `PropertyChanged` for the names themselves |
| NotifyValidationExtended.ValidateEachFrame | CompanyName.ApplicationName.DataModels/BaseNotifyValidationModelExtended.cs:104-107 | names not validated keep their entries, and the table stays well formed |
| NotifyValidationExtended.ValidateEachWhenOff | CompanyName.ApplicationName.DataModels/BaseNotifyValidationModelExtended.cs:104-107 | at level `None` validation leaves the table alone and raises only the `PropertyChanged` of the notifying overload |
| NotifyValidationExtended.NotifyValidationModelExtended.ValidateProperty | CompanyName.ApplicationName.DataModels/BaseNotifyValidationModelExtended.cs:114-125 | the private `Validate`: at level `None` nothing happens; otherwise the annotation messages and then the supplied ones are added, and the entry is removed only when both are empty; then `PropertyChanged` for `Errors` and `HasErrors` |
| NotifyValidationExtended.ValidatePropertyKeepsAnnotations | CompanyName.ApplicationName.DataModels/BaseNotifyValidationModelExtended.cs:114-125 | the entry is removed exactly when there are neither annotation nor supplied messages; all annotation messages are stored; supplied messages are stored after the old ones |
| NotifyValidationExtended.ValidatePropertyEventsShape | CompanyName.ApplicationName.DataModels/BaseNotifyValidationModelExtended.cs:114-125 | at level `None` nothing is raised; otherwise only `ErrorsChanged(p)` events, then `PropertyChanged("Errors")` and `PropertyChanged("HasErrors")` |
| NotifyValidationExtended.NotifyValidationModelExtended.AddAnnotationsAndErrors | CompanyName.ApplicationName.DataModels/BaseNotifyValidationModelExtended.cs:121-123 | adding the annotation messages, then the supplied ones, and removing the entry when both are empty leaves table and log as one validation with both lists |
| NotifyValidationExtended.ValidateInTwoSteps | CompanyName.ApplicationName.DataModels/BaseNotifyValidationModelExtended.cs:121-123 | adding the annotation messages and then validating with the supplied ones equals validating once with both |
| NotifyValidationExtended.MessagesForHolds | CompanyName.ApplicationName.DataModels/BaseNotifyValidationModelExtended.cs:120-121 | the selected messages are exactly those of the results naming the property, and none iff no result names it |
| NotifyValidationExtended.MessagesFor | CompanyName.ApplicationName.DataModels/BaseNotifyValidationModelExtended.cs:120 | helper bound: at most one message per result (what it selects is stated by `MessagesForHolds`) |
| NotifyValidationExtended.NotifyValidationModelExtended.AddValidationErrors | CompanyName.ApplicationName.DataModels/BaseNotifyValidationModelExtended.cs:121-122 | the loop adds each message in turn, raising one `ErrorsChanged` per message actually added |
| NotifyValidationExtended.NotifyValidationModelExtended.AddValidationError | CompanyName.ApplicationName.DataModels/BaseNotifyValidationModelExtended.cs:127-142 | appends the message unless present, creates a missing entry, and raises `ErrorsChanged` only on an addition |
| NotifyValidationExtended.NotifyValidationModelExtended.RemoveValidationError | CompanyName.ApplicationName.DataModels/BaseNotifyValidationModelExtended.cs:144-148 | drops the entry and raises `ErrorsChanged` |
| NotifyValidationExtended.NotifyValidationModelExtended.AddExternalError | CompanyName.ApplicationName.DataModels/BaseNotifyValidationModelExtended.cs:150-153 | adding an external error appends it and raises `PropertyChanged` for `Errors` and `HasErrors` |
| NotifyValidationExtended.NotifyValidationModelExtended.RemoveExternalError | CompanyName.ApplicationName.DataModels/BaseNotifyValidationModelExtended.cs:150-153 | removing an external error drops its first copy and raises the two `PropertyChanged` events only if something was removed |
| NotifyValidationExtended.NotifyValidationModelExtended.NotifyPropertiesChanged | CompanyName.ApplicationName.DataModels/BaseNotifyValidationModelExtended.cs:124 | raises one `PropertyChanged` per name, in order |
| NotifyValidationExtended.NotifyValidationModelExtended.OnErrorsChanged | CompanyName.ApplicationName.DataModels/BaseNotifyValidationModelExtended.cs:166 | appends one `ErrorsChanged` |
| TextBoxProperties.PreviewTextInput | CompanyName.ApplicationName.Views/Attached/TextBoxProperties.cs:63-67 | typed text is marked handled (refused) exactly when the text it would produce is not valid |
| TextBoxProperties.PreviewKeyDown | CompanyName.ApplicationName.Views/Attached/TextBoxProperties.cs:69-73 | Space is always refused; Delete and Back are refused exactly when the text has one character |
| TextBoxProperties.Pasting | CompanyName.ApplicationName.Views/Attached/TextBoxProperties.cs:75-83 | a paste is cancelled exactly when it is not a string or would produce an invalid text |
| TextBoxProperties.IsTextValid | CompanyName.ApplicationName.Views/Attached/TextBoxProperties.cs:85-88 | the regular-expression test holds exactly for a number-shaped text (digits, at most one leading '-', at most one '.'), alone or followed by one final '\n' |
| TextBoxProperties.MatchesNumberIffShape | CompanyName.ApplicationName.Views/Attached/TextBoxProperties.cs:85-88 | the recogniser for `-?\d*\.?\d*` accepts exactly the texts of digits, '-' and '.' with a '-' only at the front and at most one '.' |
| TextBoxProperties.ValidTextShape | CompanyName.ApplicationName.Views/Attached/TextBoxProperties.cs:85-88 | a valid text has only digits, '-' and '.', and at most a final '\n'; a '-' only first; at most one '.' |
| TextBoxProperties.IsTextValidExamples | CompanyName.ApplicationName.Views/Attached/TextBoxProperties.cs:87 | "", "-", ".", "-1.5", "42" and "12\n" are valid; "1.2.3", "--1", "1-", "1a", "1\n2" and "12\n\n" are not |
| TextBoxProperties.FractionPartAcceptsDigits | CompanyName.ApplicationName.Views/Attached/TextBoxProperties.cs:87 | after the point the pattern accepts exactly digit strings |
| TextBoxProperties.IntegerPartAcceptsUnsigned | CompanyName.ApplicationName.Views/Attached/TextBoxProperties.cs:87 | after the sign the pattern accepts exactly digits with at most one '.' |
| TextBoxProperties.NonNumericInputRejected | CompanyName.ApplicationName.Views/Attached/TextBoxProperties.cs:63-93 | input containing a character other than a digit, '-', '.' or '\n' never gives a valid text |
| TextBoxProperties.AppendDigitAccepted | CompanyName.ApplicationName.Views/Attached/TextBoxProperties.cs:63-93 | typing a digit at the end of a number-like text is accepted |
| TextBoxProperties.GetFullText | CompanyName.ApplicationName.Views/Attached/TextBoxProperties.cs:90-93 | the text before the selection, then the input, then the text after the selection |
| TextBoxProperties.GetFullTextReplacesAll | CompanyName.ApplicationName.Views/Attached/TextBoxProperties.cs:90-93 | with everything selected the result is the input alone |
| ProductViewModels.ProductViewModelExtended.constructor | CompanyName.ApplicationName.ViewModels/ProductViewModelExtended.cs:19-26 | two products with the same name and different Ids, the second one current, and it carries the uniqueness error once |
| ProductViewModels.ProductViewModelExtended.ProductPropertyChanged | CompanyName.ApplicationName.ViewModels/ProductViewModelExtended.cs:43-46 | only a change of `Name` re-checks the current item, with the external errors and events of `ValidateUniqueName`; any other property leaves its validation untouched |
| ProductViewModels.ProductViewModelExtended.ValidateUniqueName | CompanyName.ApplicationName.ViewModels/ProductViewModelExtended.cs:48-53 | a non-unique name appends the message (again, if already present); a unique one removes one copy; `PropertyChanged` for `Errors` and `HasErrors` is raised exactly when the external errors changed |
| ProductViewModels.ProductViewModelExtended.IsProductNameUnique | CompanyName.ApplicationName.ViewModels/ProductViewModelExtended.cs:55 | unique exactly when no product with another Id has the same non-empty name |
| ProductViewModels.NameUniqueIffNoConflict | CompanyName.ApplicationName.ViewModels/ProductViewModelExtended.cs:55 | a name is unique exactly when no product has another Id and the same non-empty name |
| ProductViewModels.CountConflicts | CompanyName.ApplicationName.ViewModels/ProductViewModelExtended.cs:55 | helper bound for `Count`: at most one per product (whether it is zero is stated by `NameUniqueIffNoConflict`) |
| ProductViewModels.EmptyNameOrSelfIsUnique | CompanyName.ApplicationName.ViewModels/ProductViewModelExtended.cs:55 | an empty name is always unique, and a product never conflicts with itself |
| ProductViewModels.SameNameIsNotUnique | CompanyName.ApplicationName.ViewModels/ProductViewModelExtended.cs:55 | two products with different Ids and the same non-empty name are both not unique |
| ProductViewModels.ProductNotifyViewModelExtended.constructor | CompanyName.ApplicationName.ViewModels/ProductNotifyViewModelExtended.cs:19-27 | two products with the same name, the second one current, carrying the uniqueness error once |
| ProductViewModels.ProductNotifyViewModelExtended.ProductPropertyChanged | CompanyName.ApplicationName.ViewModels/ProductNotifyViewModelExtended.cs:44-47 | only a change of `Name` re-checks the current item, with the external errors and events of `ValidateUniqueName` |
| ProductViewModels.ProductNotifyViewModelExtended.ValidateUniqueName | CompanyName.ApplicationName.ViewModels/ProductNotifyViewModelExtended.cs:49-54 | a non-unique name appends the message; a unique one removes one copy; `PropertyChanged` for `Errors` and `HasErrors` is raised exactly when the external errors changed |
| ProductViewModels.ProductNotifyViewModelExtended.IsProductNameUnique | CompanyName.ApplicationName.ViewModels/ProductNotifyViewModelExtended.cs:56-59 | unique exactly when no product with another Id has the same non-empty name |
| Converters.HigherLowerConvert | CompanyName.ApplicationName.Converters/HigherLowerConverter.cs:21-27 | the result is Unset iff the input is not two boxed integers; "->" iff the first is larger; "<-" otherwise |
| Converters.HigherLowerAntisymmetric | CompanyName.ApplicationName.Converters/HigherLowerConverter.cs:26 | swapping two different integers turns the arrow round |
| Converters.HigherLowerConvertBack | CompanyName.ApplicationName.Converters/HigherLowerConverter.cs:37-40 | always two Unset values |
| Converters.FeedbackTypeToImageSource | CompanyName.ApplicationName.Converters/FeedbackTypeToImageSourceConverter.cs:23-40 | the result is null or a pack URI under the Images folder |
| Converters.FeedbackTypeToImageSourceCases | CompanyName.ApplicationName.Converters/FeedbackTypeToImageSourceConverter.cs:23-40 | non-null exactly for a `FeedbackType` with an image converted to `ImageSource`, and then the URI is prefix, image name and ".png" |
| Converters.ImageNamesShared | CompanyName.ApplicationName.Converters/FeedbackTypeToImageSourceConverter.cs:30-37 | `Validation` and `Warning` share the warning image; `None` and undefined values have none |
| Converters.ImageNamesDistinct | CompanyName.ApplicationName.Converters/FeedbackTypeToImageSourceConverter.cs:31-39 | the other named members have pairwise different images and URIs |
| Converters.PackUriInjective | CompanyName.ApplicationName.Converters/FeedbackTypeToImageSourceConverter.cs:39 | different image names give different pack URIs |
| Converters.FeedbackTypeToImageSourceBack | CompanyName.ApplicationName.Converters/FeedbackTypeToImageSourceConverter.cs:50-53 | always null |
| Converters.FirstLetter | CompanyName.ApplicationName.Converters/StringToFirstLetterConverter.cs:22-26 | Unset exactly for null; throws exactly for a non-null value whose `ToString()` is empty; otherwise the first character |
| Converters.FirstLetterOfKnownValues | CompanyName.ApplicationName.Converters/StringToFirstLetterConverter.cs:22-26 | integers, characters and feedback types never throw; an integer gives '-' exactly when it is negative |
| Converters.FirstLetterOfString | CompanyName.ApplicationName.Converters/StringToFirstLetterConverter.cs:25 | a non-empty string gives its first character; the empty string throws `IndexOutOfRangeException` |
| Converters.NatToStringRoundTrip | CompanyName.ApplicationName.Converters/StringToFirstLetterConverter.cs:25 | the decimal form of a number reads back as the number, and starts with '0' only for zero |
| Converters.FirstLetterBack | CompanyName.ApplicationName.Converters/StringToFirstLetterConverter.cs:36-39 | always Unset |

## Left out

- Event subscription and unsubscription are left out, as are handlers that are null. Events are modelled as always delivered: an event is "raised" when it is appended to `events`.
- `IsNumericOnly` attach and detach, the `OnEnterKeyDown` command property and WPF's own handling of the events are left out. They are UI wiring.
- The private `ExternalErrors_CollectionChanged` handler is not a separate member. It is modelled by the two methods that change `externalErrors`, `AddExternalError` and `RemoveExternalError`, each of which raises the two `PropertyChanged` events.
- The abstract indexer `this[propertyName]` is a parameter `indexer`. The results of `Validator.TryValidateObject` are a parameter `results`. The attributes of the unseen subclasses decide both.
- `ValidateAllProperties` is abstract and has no body in the core, so there is nothing to model.
- `ValidationLevel` and `FeedbackType` are enums whose definitions are not part of this model. `ValidationLevel` is modelled with the two members the core names. `FeedbackType` is modelled with the members the converter names, plus any other underlying value.
- `Dictionary` enumeration order is unspecified, so it is a parameter `order` of `Errors`. The contracts hold for any order that lists each key once.
- The lazy `Where(...).ForEach(Add)` in `Errors` is modelled by the interleaved loop in `AddEachMissing`. Each external error is tested against the collection as it stands when that element is reached, so the test also sees external errors added earlier. The `yield` of `Add(item)` and `DistinctBy` is modelled as the finished sequence.
- General.Count: returns an unbounded integer. The 32-bit wrap-around of `int` on more than 2^31 - 1 items is not modelled.
- General.RemoveAll: assumes the range is not the collection itself. Removing a collection from itself through `range.Count()` and `ElementAt` while it shrinks is not modelled.
- General.AddAll: the range is a sequence value, so it cannot be the collection itself. In the source, `collection.Add(collection)` never ends, because `range.Count()` grows with every item added.
- General.AddRange: the range is a sequence value, so it cannot be the collection itself. In the source, `collection.AddRange(collection)` throws `InvalidOperationException`, because the `foreach` enumerator sees its collection modified.
- General.AppendUniqueOnNewLineIfNotEmpty: `Environment.NewLine` is the parameter `newLine`. `Trim` removes the characters of `Char.IsWhiteSpace`: U+0009 to U+000D, U+0085, the Unicode space separators, and the line and paragraph separators U+2028 and U+2029. A null text, which throws in the source, is not modelled.
- General.AddUniqueIfNotEmpty: a null text is modelled as `Null` and does nothing, as in the source.
- `FillWithMembers` and `GetDescription` use reflection over enum metadata. They are not part of this model.
- TextBoxProperties: `\d` is taken as the ASCII digits. .NET's `\d` also matches other Unicode decimal digits.
- TextBoxProperties.PreviewTextInput and TextBoxProperties.Pasting require a selection that lies within the text, as a WPF `TextBox` guarantees.
- Product names are never null. In the source, two products whose names are both null conflict in `IsProductNameUnique`, because `null != ""` and `null == null`. The model has no null name, so it does not capture that case.
- Messages are never null. Null messages from the indexer or from `ValidationResult.ErrorMessage` are not modelled. A null `errors` enumerable is not modelled either; in the source, `errors.Any()` throws on it.
- The protected `AllPropertyErrors` accessor (BaseNotifyValidationModel.cs:24, BaseNotifyValidationModelExtended.cs:49) lets subclasses change the table directly. The model has no such writes: the table changes only through the modelled methods, and those keep it well formed (`Valid()`). A subclass that stored an empty or duplicated list would break the `Valid()` precondition the `Validate` methods rely on; the model does not cover such subclasses.
- The product's `Guid` Id is an integer. `Guid.NewGuid()` is modelled by the constructors' two distinct Ids. The price is left out because no modelled member reads it.
- `BaseSynchronizableDataModel` and the `Products` collection classes are not part of this model, beyond the list of products and the current item.
- `CurrentItemChanged` wiring is left out. It only moves the `PropertyChanged` subscription to the new current item.
- Converters: the string form of `DependencyProperty.UnsetValue` is taken to be "{DependencyProperty.UnsetValue}". Integers are formatted as invariant-culture decimal. Other objects carry their `ToString` result.
- Converters: the `parameter` and `culture` arguments are not modelled, because no converter reads them.
