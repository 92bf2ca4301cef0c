// The product grid of the home page: the category filter sent with the
// product request, the availability rules for the cart and for the
// admin's product toggle, the client-side search and offers filter, and
// the local updates of the category list after a toggle or a delete.

module Catalog {

  import opened Common

  /** A discount attached to a menu item. */
  datatype Offer = Offer(isEnabled: bool, isPercentage: bool, discountValue: real)

  /**
   * A product as the grid holds it. `categoryId` is None when the item has
   * no category; like every JavaScript id it is also "missing" when 0.
   */
  datatype Product = Product(
    name: string,
    description: string,
    ingredients: seq<string>,
    isActive: bool,
    categoryId: Option<int>,
    itemOffer: Option<Offer>)

  /**
   * An entry of the category strip. The two fixed entries "all" and
   * "offers" have no `originalId`; the others carry the server id and its
   * string form as `id`.
   */
  datatype Category = Category(id: string, name: string, isActive: bool, originalId: Option<int>)

  const AllId: string := "all"
  const OffersId: string := "offers"

  predicate IsFixedCategory(id: string) { id == AllId || id == OffersId }

  /** buildFiltersArray: pushes one "category.id" filter unless "all" or "offers" is selected. */
  method BuildCategoryFilters(selectedCategory: string) returns (filtersArray: seq<FilterEntry>)
    ensures IsFixedCategory(selectedCategory) ==> filtersArray == []
    ensures !IsFixedCategory(selectedCategory) ==>
      filtersArray == [FilterEntry("category.id", selectedCategory, false)]
  {
    filtersArray := [];
    if selectedCategory != AllId && selectedCategory != OffersId {
      filtersArray := filtersArray + [FilterEntry("category.id", selectedCategory, false)];
    }
  }

  // ---------------------------------------------------------------------
  // Availability

  /** `!product.categoryId` is false: a category id is present and non-zero. */
  predicate HasCategoryId(p: Product) { p.categoryId.Some? && p.categoryId.value != 0 }

  /** categories.find((cat) => cat.originalId === id) */
  function FindByOriginalId(categories: seq<Category>, id: int): (r: Option<Category>)
    ensures r.Some? ==> r.value in categories && r.value.originalId == Some(id)
    ensures r.None? ==> forall c :: c in categories ==> c.originalId != Some(id)
  {
    if categories == [] then None
    else if categories[0].originalId == Some(id) then Some(categories[0])
    else FindByOriginalId(categories[1..], id)
  }

  /** isProductCategoryDisabled */
  predicate IsProductCategoryDisabled(p: Product, categories: seq<Category>) {
    if !HasCategoryId(p) then false
    else match FindByOriginalId(categories, p.categoryId.value)
      case None => true
      case Some(c) => !c.isActive
  }

  /** isProductAvailableForCart */
  predicate IsProductAvailableForCart(p: Product, categories: seq<Category>) {
    if !p.isActive then false
    else if IsProductCategoryDisabled(p, categories) then false
    else true
  }

  /** canToggleProductActive */
  predicate CanToggleProductActive(p: Product, categories: seq<Category>) {
    if !HasCategoryId(p) then true
    else
      var c := FindByOriginalId(categories, p.categoryId.value);
      c.None? || c.value.isActive
  }

  /**
   * A product can go to the cart exactly when it is active and its category
   * is not disabled; a product without a category id is never held back by
   * its category; a category id that no entry carries counts as disabled for
   * the cart, yet the admin may still toggle the product. Otherwise the
   * toggle is allowed exactly when the category is not disabled.
   */
  lemma AvailabilityRules(p: Product, categories: seq<Category>)
    ensures IsProductAvailableForCart(p, categories) <==> p.isActive && !IsProductCategoryDisabled(p, categories)
    ensures !HasCategoryId(p) ==> !IsProductCategoryDisabled(p, categories) && CanToggleProductActive(p, categories)
    ensures HasCategoryId(p) && (forall c :: c in categories ==> c.originalId != p.categoryId) ==>
      IsProductCategoryDisabled(p, categories) && !IsProductAvailableForCart(p, categories)
      && CanToggleProductActive(p, categories)
    ensures HasCategoryId(p) && (exists c :: c in categories && c.originalId == p.categoryId) ==>
      (CanToggleProductActive(p, categories) <==> !IsProductCategoryDisabled(p, categories))
  {
  }

  // ---------------------------------------------------------------------
  // Search and the offers view

  /** `product.itemOffer && product.itemOffer.isEnabled` */
  predicate HasEnabledOffer(p: Product) { p.itemOffer.Some? && p.itemOffer.value.isEnabled }

  predicate AnyIngredientIncludes(ingredients: seq<string>, needle: string) {
    exists i :: 0 <= i < |ingredients| && Includes(ToLower(ingredients[i]), needle)
  }

  /** Name, description or an ingredient contains the term, ignoring case. */
  predicate MatchesTerm(p: Product, searchTerm: string) {
    var needle := ToLower(searchTerm);
    Includes(ToLower(p.name), needle)
    || Includes(ToLower(p.description), needle)
    || AnyIngredientIncludes(p.ingredients, needle)
  }

  /** The effect that recomputes `filteredProducts` from the products, the term and the selection. */
  function SearchProducts(products: seq<Product>, selectedCategory: string, searchTerm: string): seq<Product> {
    if searchTerm == "" then
      if selectedCategory == OffersId then Filter(products, HasEnabledOffer) else products
    else
      var filtered := if selectedCategory == OffersId then Filter(products, HasEnabledOffer) else products;
      Filter(filtered, (p: Product) => MatchesTerm(p, searchTerm))
  }

  /**
   * The visible products keep the grid's order and are exactly those that
   * have an enabled offer when "offers" is selected and match the term when
   * there is one; an empty term applies no text filter.
   */
  lemma SearchProductsSpec(products: seq<Product>, selectedCategory: string, searchTerm: string)
    ensures var r := SearchProducts(products, selectedCategory, searchTerm);
      && IsSubsequence(r, products)
      && (forall p :: p in r <==>
            p in products
            && (selectedCategory == OffersId ==> HasEnabledOffer(p))
            && (searchTerm != "" ==> MatchesTerm(p, searchTerm)))
      && (searchTerm == "" && selectedCategory != OffersId ==> r == products)
  {
    var offers := Filter(products, HasEnabledOffer);
    FilterSpec(products, HasEnabledOffer);
    if searchTerm != "" {
      var base := if selectedCategory == OffersId then offers else products;
      var byTerm := (p: Product) => MatchesTerm(p, searchTerm);
      FilterSpec(base, byTerm);
      SubsequenceReflexive(products);
      SubsequenceTransitive(Filter(base, byTerm), base, products);
    } else if selectedCategory != OffersId {
      SubsequenceReflexive(products);
    }
  }

  // ---------------------------------------------------------------------
  // Category list updates

  /**
   * handleToggleCategoryActive after the server accepted the change: the
   * entry with that id has `isActive` flipped. The fixed entries are refused,
   * and a failed request leaves the list alone.
   */
  function ToggleCategoryActive(categories: seq<Category>, categoryId: string, succeeded: bool): seq<Category> {
    if IsFixedCategory(categoryId) || !succeeded then categories
    else seq(|categories|, i requires 0 <= i < |categories| =>
           if categories[i].id == categoryId then categories[i].(isActive := !categories[i].isActive)
           else categories[i])
  }

  /** Only the matching entry changes, only in `isActive`, and only after a successful request. */
  lemma ToggleCategoryOnlyMatching(categories: seq<Category>, categoryId: string, succeeded: bool)
    ensures var r := ToggleCategoryActive(categories, categoryId, succeeded);
      && |r| == |categories|
      && (forall i :: 0 <= i < |r| && (categories[i].id != categoryId || IsFixedCategory(categoryId) || !succeeded)
            ==> r[i] == categories[i])
      && (forall i :: 0 <= i < |r| && categories[i].id == categoryId && !IsFixedCategory(categoryId) && succeeded
            ==> r[i].isActive == !categories[i].isActive && r[i].(isActive := categories[i].isActive) == categories[i])
  {
  }

  /** Toggling twice restores the list. */
  lemma ToggleCategoryTwice(categories: seq<Category>, categoryId: string)
    ensures ToggleCategoryActive(ToggleCategoryActive(categories, categoryId, true), categoryId, true) == categories
  {
  }

  /** The category strip together with the selected entry. */
  datatype CategoryView = CategoryView(categories: seq<Category>, selected: string)

  /** categories.find((cat) => cat.id === id) */
  function FindById(categories: seq<Category>, id: string): (r: Option<Category>)
    ensures r.Some? ==> r.value in categories && r.value.id == id
    ensures r.None? ==> forall c :: c in categories ==> c.id != id
  {
    if categories == [] then None
    else if categories[0].id == id then Some(categories[0])
    else FindById(categories[1..], id)
  }

  /** `products.filter((product) => product.categoryId === category.originalId).length > 0` */
  predicate HasProductsIn(products: seq<Product>, c: Category) {
    exists i :: 0 <= i < |products| && products[i].categoryId == c.originalId
  }

  /**
   * handleDeleteCategory: refused for the fixed entries, for an id that is
   * not in the list, and for a category that still holds products; after
   * the user confirms and the server deletes it, the entry is removed and a
   * selection on it falls back to "all".
   */
  function DeleteCategory(view: CategoryView, products: seq<Product>, categoryId: string,
                          confirmed: bool, succeeded: bool): CategoryView {
    if IsFixedCategory(categoryId) then view
    else match FindById(view.categories, categoryId)
      case None => view
      case Some(c) =>
        if HasProductsIn(products, c) || !confirmed || !succeeded then view
        else CategoryView(
          Filter(view.categories, (cat: Category) => cat.id != categoryId),
          if view.selected == categoryId then AllId else view.selected)
  }

  /**
   * A delete removes exactly the entries with that id and nothing else,
   * keeps the order of the rest, and resets the selection only when it was
   * the deleted entry. It happens exactly when the id is not fixed, is in
   * the list, holds no products, and the user confirms and the server
   * succeeds; every refusal leaves the view as it was (for a missing id the
   * code throws on `category.originalId` before changing anything).
   */
  lemma DeleteCategorySpec(view: CategoryView, products: seq<Product>, categoryId: string,
                           confirmed: bool, succeeded: bool)
    ensures var r := DeleteCategory(view, products, categoryId, confirmed, succeeded);
      var deleted := r != view;
      && IsSubsequence(r.categories, view.categories)
      && (forall c :: c in r.categories <==> c in view.categories && (!deleted || c.id != categoryId))
      && (deleted ==> !IsFixedCategory(categoryId) && confirmed && succeeded)
      && (deleted ==> r.selected == (if view.selected == categoryId then AllId else view.selected))
      && (!deleted ==> r.selected == view.selected)
    ensures var r := DeleteCategory(view, products, categoryId, confirmed, succeeded);
      var f := FindById(view.categories, categoryId);
      && ((!IsFixedCategory(categoryId) && f.Some? && !HasProductsIn(products, f.value) && confirmed && succeeded)
          ==> (forall c :: c in r.categories <==> c in view.categories && c.id != categoryId)
              && r.selected == (if view.selected == categoryId then AllId else view.selected)
              && r.categories != view.categories)
      && (IsFixedCategory(categoryId) ==> r == view)
      && (f.Some? && HasProductsIn(products, f.value) ==> r == view)
      && (f.None? ==> r == view)
      && (!confirmed || !succeeded ==> r == view)
  {
    var keep := (cat: Category) => cat.id != categoryId;
    FilterSpec(view.categories, keep);
    SubsequenceReflexive(view.categories);
  }
}
