/**
 * The two "Extended" product view models: each holds a list of products
 * and a current item, and keeps the rule that a product's name is unique
 * among the products by adding or removing one fixed message on the
 * product's external errors.
 *
 * A product is an object with an Id, a name and its own validation model
 * (the validation base class it derives from). Ids stand for the `Guid`s the
 * constructor creates, so two products made there have different Ids.
 */
module ProductViewModels {
  import opened General
  import opened ErrorTable
  import opened NotifyValidationExtended

  /** The message `ValidateUniqueName` adds and removes. */
  const UniqueNameMessage: string := "The product name must be unique"

  /** The name the constructors give both products. */
  const InitialName: string := "Virtual Reality Headset"

  class Product {
    const id: int
    var name: string
    /** The validation state the product inherits, with its `ExternalErrors`. */
    const validation: NotifyValidationModelExtended

    constructor (id: int, name: string)
      ensures this.id == id && this.name == name
      ensures fresh(validation) && validation.Valid()
      ensures validation.externalErrors == [] && validation.allPropertyErrors == map[] && validation.events == []
    {
      this.id := id;
      this.name := name;
      validation := new NotifyValidationModelExtended();
    }
  }

  /** `p` counts against `product`: another Id, a non-empty name, the same name. */
  predicate Conflicts(p: Product, product: Product)
    reads p, product
  {
    p.id != product.id && p.name != "" && p.name == product.name
  }

  /** `Products.Count(p => p.Id != product.Id && p.Name != "" && p.Name == product.Name)`. */
  function CountConflicts(products: seq<Product>, product: Product): (r: nat)
    reads products, product
    ensures r <= |products|
    decreases |products|
  {
    if products == [] then 0
    else CountConflicts(products[..|products| - 1], product) + (if Conflicts(products[|products| - 1], product) then 1 else 0)
  }

  /** `IsProductNameUnique`: no product conflicts with `product`. */
  predicate IsNameUnique(products: seq<Product>, product: Product)
    reads products, product
  {
    CountConflicts(products, product) == 0
  }

  /** The count is zero exactly when no product has another Id and the same non-empty name. */
  lemma {:induction false} NameUniqueIffNoConflict(products: seq<Product>, product: Product)
    ensures IsNameUnique(products, product) <==>
      forall i :: 0 <= i < |products| ==>
        !(products[i].id != product.id && products[i].name != "" && products[i].name == product.name)
    decreases |products|
  {
    if products != [] {
      var init := products[..|products| - 1];
      NameUniqueIffNoConflict(init, product);
      assert forall i :: 0 <= i < |init| ==> init[i] == products[i];
    }
  }

  /** A product with an empty name is always unique, and a product never conflicts with itself. */
  lemma EmptyNameOrSelfIsUnique(products: seq<Product>, product: Product)
    ensures product.name == "" ==> IsNameUnique(products, product)
    ensures IsNameUnique(products + [product], product) <==> IsNameUnique(products, product)
  {
    NameUniqueIffNoConflict(products, product);
    assert (products + [product])[..|products|] == products;
  }

  /** Two products with the same non-empty name and different Ids are each not unique. */
  lemma SameNameIsNotUnique(products: seq<Product>, i: nat, j: nat)
    requires i < |products| && j < |products|
    requires products[i].id != products[j].id && products[i].name == products[j].name != ""
    ensures !IsNameUnique(products, products[i]) && !IsNameUnique(products, products[j])
  {
    NameUniqueIffNoConflict(products, products[i]);
    NameUniqueIffNoConflict(products, products[j]);
  }

  /** `ProductViewModelExtended`. */
  class ProductViewModelExtended {
    var products: seq<Product>
    /** `Products.CurrentItem`. */
    var currentItem: Product

    /**
     * Adds two products named `InitialName`, makes the last one current and
     * checks its name, which gives it the uniqueness error.
     */
    constructor (firstId: int, secondId: int)
      requires firstId != secondId
      ensures |products| == 2 && currentItem == products[1]
      ensures products[0].id == firstId && products[1].id == secondId
      ensures products[0].name == InitialName && products[1].name == InitialName
      ensures fresh(products[0]) && fresh(products[1]) && fresh(currentItem.validation)
      ensures currentItem.validation.externalErrors == [UniqueNameMessage]
    {
      var first := new Product(firstId, InitialName);
      var second := new Product(secondId, InitialName);
      products := [first, second];
      currentItem := second;
      new;
      SameNameIsNotUnique(products, 0, 1);
      ValidateUniqueName(currentItem);
    }

    /** `IsProductNameUnique`: no other product has the same non-empty name. */
    predicate IsProductNameUnique(product: Product): (r: bool)
      reads this, products, product
      ensures r <==> forall i :: 0 <= i < |products| ==>
        !(products[i].id != product.id && products[i].name != "" && products[i].name == product.name)
    {
      NameUniqueIffNoConflict(products, product);
      IsNameUnique(products, product)
    }

    /**
     * `ValidateUniqueName`: a name that is not unique adds the message again,
     * whether or not it is already there; a unique one removes one copy.
     * Each change of the external errors raises `PropertyChanged` for
     * `Errors` and `HasErrors`; removing a message that is not there raises
     * nothing.
     */
    method ValidateUniqueName(product: Product)
      modifies product.validation`externalErrors, product.validation`events
      ensures !old(IsProductNameUnique(product)) ==>
        product.validation.externalErrors == old(product.validation.externalErrors) + [UniqueNameMessage]
      ensures old(IsProductNameUnique(product)) ==>
        product.validation.externalErrors == RemoveFirst(old(product.validation.externalErrors), UniqueNameMessage)
      ensures product.validation.events == old(product.validation.events) +
        (if !old(IsProductNameUnique(product)) || UniqueNameMessage in old(product.validation.externalErrors)
         then PropertyChangedEach(SummaryNames) else [])
    {
      var errorMessage := UniqueNameMessage;
      if !IsProductNameUnique(product) {
        product.validation.AddExternalError(errorMessage);
      } else {
        var _ := product.validation.RemoveExternalError(errorMessage);
      }
    }

    /** `Product_PropertyChanged`: only a change of `Name` re-checks the current item. */
    method ProductPropertyChanged(propertyName: string)
      modifies currentItem.validation`externalErrors, currentItem.validation`events
      ensures propertyName != "Name" ==> unchanged(currentItem.validation)
      ensures propertyName == "Name" && !old(IsProductNameUnique(currentItem)) ==>
        currentItem.validation.externalErrors == old(currentItem.validation.externalErrors) + [UniqueNameMessage]
      ensures propertyName == "Name" && old(IsProductNameUnique(currentItem)) ==>
        currentItem.validation.externalErrors == RemoveFirst(old(currentItem.validation.externalErrors), UniqueNameMessage)
      ensures propertyName == "Name" ==>
        currentItem.validation.events == old(currentItem.validation.events) +
          (if !old(IsProductNameUnique(currentItem)) || UniqueNameMessage in old(currentItem.validation.externalErrors)
           then PropertyChangedEach(SummaryNames) else [])
    {
      if propertyName == "Name" {
        ValidateUniqueName(currentItem);
      }
    }
  }

  /** `ProductNotifyViewModelExtended`: the same rule over its own products. */
  class ProductNotifyViewModelExtended {
    var products: seq<Product>
    /** `Products.CurrentItem`. */
    var currentItem: Product

    /**
     * Adds two products named `InitialName`, makes the last one current and
     * checks its name, which gives it the uniqueness error.
     */
    constructor (firstId: int, secondId: int)
      requires firstId != secondId
      ensures |products| == 2 && currentItem == products[1]
      ensures products[0].id == firstId && products[1].id == secondId
      ensures products[0].name == InitialName && products[1].name == InitialName
      ensures fresh(products[0]) && fresh(products[1]) && fresh(currentItem.validation)
      ensures currentItem.validation.externalErrors == [UniqueNameMessage]
    {
      var first := new Product(firstId, InitialName);
      var second := new Product(secondId, InitialName);
      products := [first, second];
      currentItem := second;
      new;
      SameNameIsNotUnique(products, 0, 1);
      ValidateUniqueName(currentItem);
    }

    /** `IsProductNameUnique`: no other product has the same non-empty name. */
    predicate IsProductNameUnique(product: Product): (r: bool)
      reads this, products, product
      ensures r <==> forall i :: 0 <= i < |products| ==>
        !(products[i].id != product.id && products[i].name != "" && products[i].name == product.name)
    {
      NameUniqueIffNoConflict(products, product);
      IsNameUnique(products, product)
    }

    /**
     * `ValidateUniqueName`: a name that is not unique adds the message again,
     * whether or not it is already there; a unique one removes one copy and
     * leaves the other external errors as they were. Each change of the
     * external errors raises `PropertyChanged` for `Errors` and `HasErrors`.
     */
    method ValidateUniqueName(product: Product)
      modifies product.validation`externalErrors, product.validation`events
      ensures !old(IsProductNameUnique(product)) ==>
        product.validation.externalErrors == old(product.validation.externalErrors) + [UniqueNameMessage]
      ensures old(IsProductNameUnique(product)) ==>
        product.validation.externalErrors == RemoveFirst(old(product.validation.externalErrors), UniqueNameMessage)
      ensures product.validation.events == old(product.validation.events) +
        (if !old(IsProductNameUnique(product)) || UniqueNameMessage in old(product.validation.externalErrors)
         then PropertyChangedEach(SummaryNames) else [])
    {
      var errorMessage := UniqueNameMessage;
      if !IsProductNameUnique(product) {
        product.validation.AddExternalError(errorMessage);
      } else {
        var _ := product.validation.RemoveExternalError(errorMessage);
      }
    }

    /** `Product_PropertyChanged`: only a change of `Name` re-checks the current item. */
    method ProductPropertyChanged(propertyName: string)
      modifies currentItem.validation`externalErrors, currentItem.validation`events
      ensures propertyName != "Name" ==> unchanged(currentItem.validation)
      ensures propertyName == "Name" && !old(IsProductNameUnique(currentItem)) ==>
        currentItem.validation.externalErrors == old(currentItem.validation.externalErrors) + [UniqueNameMessage]
      ensures propertyName == "Name" && old(IsProductNameUnique(currentItem)) ==>
        currentItem.validation.externalErrors == RemoveFirst(old(currentItem.validation.externalErrors), UniqueNameMessage)
      ensures propertyName == "Name" ==>
        currentItem.validation.events == old(currentItem.validation.events) +
          (if !old(IsProductNameUnique(currentItem)) || UniqueNameMessage in old(currentItem.validation.externalErrors)
           then PropertyChangedEach(SummaryNames) else [])
    {
      if propertyName == "Name" {
        ValidateUniqueName(currentItem);
      }
    }
  }
}
