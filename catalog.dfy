/** The public catalogue queries of store/views.py: the products of a
    category and of everything below it, the list of second-level
    categories, and the five best-rated products. The category tree is the
    parent links of `Models.Category` together with the depth (`level`) the
    tree library keeps on every node. */
module Catalog {
  import opened Wrappers
  import opened Tables
  import opened Models
  import Sorting
  import Text

  // ---------------------------------------------------------------------
  // The category tree

  /** `d` is `c` itself or lies somewhere below it: walking up the parent
      links from `d` reaches `c`. Each step up must lower the level, which
      every tree-shaped category table guarantees. */
  predicate Under(cats: map<CategoryId, Category>, d: CategoryId, c: CategoryId)
    decreases if d in cats then cats[d].level else 0
  {
    && d in cats && c in cats
    && (d == c ||
        match cats[d].parent
        case None => false
        case Some(p) => p in cats && cats[p].level < cats[d].level && Under(cats, p, c))
  }

  /** The set the tree library calls `get_descendants(include_self=True)`. */
  function Descendants(cats: map<CategoryId, Category>, c: CategoryId): (r: set<CategoryId>)
    ensures forall d :: d in r <==> Under(cats, d, c)
  {
    set d | d in cats && Under(cats, d, c)
  }

  /** The descendants of `c` are the least set that holds `c` and every child
      of its members. */
  lemma {:induction false} DescendantsLeast(cats: map<CategoryId, Category>, c: CategoryId, s: set<CategoryId>)
    requires TreeShaped(cats) && c in cats
    requires c in s
    requires forall d | d in cats && cats[d].parent.Some? && cats[d].parent.value in s :: d in s
    ensures c in Descendants(cats, c)
    ensures forall d | d in cats && cats[d].parent.Some? && cats[d].parent.value in Descendants(cats, c) ::
              d in Descendants(cats, c)
    ensures Descendants(cats, c) <= s
  {
    forall d | d in Descendants(cats, c) ensures d in s {
      UnderIn(cats, d, c, s);
    }
  }

  lemma {:induction false} UnderIn(cats: map<CategoryId, Category>, d: CategoryId, c: CategoryId, s: set<CategoryId>)
    requires Under(cats, d, c) && c in s
    requires forall d | d in cats && cats[d].parent.Some? && cats[d].parent.value in s :: d in s
    ensures d in s
    decreases cats[d].level
  {
    if d != c {
      UnderIn(cats, cats[d].parent.value, c, s);
    }
  }

  /** Below is transitive. */
  lemma {:induction false} UnderTransitive(cats: map<CategoryId, Category>, d: CategoryId, m: CategoryId, c: CategoryId)
    requires Under(cats, d, m) && Under(cats, m, c)
    ensures Under(cats, d, c)
    decreases cats[d].level
  {
    if d != m {
      UnderTransitive(cats, cats[d].parent.value, m, c);
    }
  }

  /** A descendant sits deeper than a proper ancestor, so the tree has no
      cycle: two categories below each other are the same category. */
  lemma {:induction false} UnderLevel(cats: map<CategoryId, Category>, d: CategoryId, c: CategoryId)
    requires Under(cats, d, c)
    ensures cats[c].level <= cats[d].level
    ensures d != c ==> cats[c].level < cats[d].level
    ensures Under(cats, c, d) ==> c == d
    decreases cats[d].level
  {
    if d != c {
      UnderLevel(cats, cats[d].parent.value, c);
      if Under(cats, c, d) {
        UnderLevel(cats, c, d);
      }
    }
  }

  /** Read from the top: `d` lies below `c` exactly when it is `c` or lies
      below one of `c`'s children. */
  lemma {:induction false} UnderTopDown(cats: map<CategoryId, Category>, d: CategoryId, c: CategoryId)
    requires TreeShaped(cats)
    ensures Under(cats, d, c) <==>
      d in cats && c in cats &&
      (d == c || exists ch | ch in cats && cats[ch].parent == Some(c) :: Under(cats, d, ch))
    decreases if d in cats then cats[d].level else 0
  {
    if Under(cats, d, c) && d != c {
      var p := cats[d].parent.value;
      if p == c {
        assert Under(cats, d, d);
      } else {
        UnderTopDown(cats, p, c);
        var ch :| ch in cats && cats[ch].parent == Some(c) && Under(cats, p, ch);
        assert Under(cats, d, ch);
      }
    }
    if d in cats && c in cats && d != c && exists ch | ch in cats && cats[ch].parent == Some(c) :: Under(cats, d, ch) {
      var ch :| ch in cats && cats[ch].parent == Some(c) && Under(cats, d, ch);
      assert Under(cats, ch, c);
      UnderTransitive(cats, d, ch, c);
    }
  }

  /** `Category.objects.get(slug=slug)`; None when no category has the slug
      (the source lets that DoesNotExist escape). */
  function CategoryBySlug(cats: Table<Category>, slug: string): (r: Option<CategoryId>)
    requires cats.Valid()
    ensures r.None? <==> forall c | c in cats.rows :: cats.rows[c].slug != slug
    ensures r.Some? ==> r.value in cats.rows && cats.rows[r.value].slug == slug
  {
    var ids := cats.Ids((x: Category) => x.slug == slug);
    if ids == [] then None
    else
      assert ids[0] in ids;
      Some(ids[0])
  }

  /** `CategoryItemView.get_queryset`: the products whose category is the
      slug's category or any category below it, newest first (the products'
      default ordering). Inactive products are not filtered out. */
  function ProductsInCategory(cats: Table<Category>, products: Table<Product>, slug: string)
    : (r: Result<seq<ProductId>, Error>)
    requires cats.Valid() && products.Valid() && CategoriesOk(cats.rows)
    ensures r.Failure? <==> forall c | c in cats.rows :: cats.rows[c].slug != slug
    ensures r.Failure? ==> r.error == DoesNotExist
    ensures forall c | c in cats.rows && cats.rows[c].slug == slug ::
              r.Success? &&
              forall p :: p in r.value <==>
                p in products.rows && Under(cats.rows, products.rows[p].category, c)
    ensures r.Success? ==> forall i, j | 0 <= i < j < |r.value| :: r.value[i] > r.value[j]
  {
    match CategoryBySlug(cats, slug)
    case None => Failure(DoesNotExist)
    case Some(c) =>
      Success(products.IdsNewestFirst((p: Product) => Under(cats.rows, p.category, c)))
  }

  // ---------------------------------------------------------------------
  // The category list

  /** The name of a category's parent; empty for a root or an unknown id. */
  function ParentName(cats: map<CategoryId, Category>, id: CategoryId): string {
    if id in cats && cats[id].parent.Some? && cats[id].parent.value in cats
    then cats[cats[id].parent.value].name
    else ""
  }

  function Name(cats: map<CategoryId, Category>, id: CategoryId): string {
    if id in cats then cats[id].name else ""
  }

  /** The tree order of two second-level categories: the tree library keeps
      siblings sorted by name (`order_insertion_by`) and trees sorted by the
      name of their root, so they are listed by parent name, then by name. */
  predicate ListedBefore(cats: map<CategoryId, Category>, a: CategoryId, b: CategoryId) {
    || Text.Less(ParentName(cats, a), ParentName(cats, b))
    || (ParentName(cats, a) == ParentName(cats, b) && Text.Less(Name(cats, a), Name(cats, b)))
  }

  lemma TreeOrderIsStrict(cats: map<CategoryId, Category>)
    ensures Sorting.StrictOrder((a: CategoryId, b: CategoryId) => ListedBefore(cats, a, b))
  {
    forall a: CategoryId ensures !ListedBefore(cats, a, a) {
      Text.LessIrreflexive(ParentName(cats, a));
      Text.LessIrreflexive(Name(cats, a));
    }
    forall a: CategoryId, b: CategoryId, c: CategoryId | ListedBefore(cats, a, b) && ListedBefore(cats, b, c)
      ensures ListedBefore(cats, a, c)
    {
      if Text.Less(ParentName(cats, a), ParentName(cats, b)) && Text.Less(ParentName(cats, b), ParentName(cats, c)) {
        Text.LessTransitive(ParentName(cats, a), ParentName(cats, b), ParentName(cats, c));
      }
      if Text.Less(Name(cats, a), Name(cats, b)) && Text.Less(Name(cats, b), Name(cats, c)) {
        Text.LessTransitive(Name(cats, a), Name(cats, b), Name(cats, c));
      }
    }
  }

  /** `CategoryListView`: exactly the categories at level 1, each once,
      siblings in name order and groups in the order of their parents' names. */
  function CategoryList(cats: Table<Category>): (r: seq<CategoryId>)
    requires cats.Valid() && CategoriesOk(cats.rows)
    ensures forall id :: id in r <==> id in cats.rows && cats.rows[id].level == 1
    ensures forall i, j | 0 <= i < j < |r| :: r[i] != r[j]
    ensures forall i, j | 0 <= i < j < |r| :: ListedBefore(cats.rows, r[i], r[j])
    ensures forall i, j | 0 <= i < j < |r| && cats.rows[r[i]].parent == cats.rows[r[j]].parent ::
              Text.Less(cats.rows[r[i]].name, cats.rows[r[j]].name)
  {
    var before := (a: CategoryId, b: CategoryId) => ListedBefore(cats.rows, a, b);
    var ids := cats.Ids((x: Category) => x.level == 1);
    TreeOrderIsStrict(cats.rows);
    var r := Sorting.Sort(ids, before);
    Sorting.DistinctPermutation(ids, r);
    ListedInOrder(cats.rows, r);
    r
  }

  /** Sorted distinct categories are listed strictly in tree order, because
      distinct categories have distinct names. */
  lemma ListedInOrder(cats: map<CategoryId, Category>, r: seq<CategoryId>)
    requires CategoriesOk(cats)
    requires forall id | id in r :: id in cats
    requires forall i, j | 0 <= i < j < |r| :: r[i] != r[j]
    requires Sorting.Sorted(r, (a: CategoryId, b: CategoryId) => ListedBefore(cats, a, b))
    ensures forall i, j | 0 <= i < j < |r| :: ListedBefore(cats, r[i], r[j])
  {
    forall i, j | 0 <= i < j < |r| ensures ListedBefore(cats, r[i], r[j]) {
      assert r[i] in r && r[j] in r;
      assert !ListedBefore(cats, r[j], r[i]);
      assert Name(cats, r[i]) != Name(cats, r[j]);
      if ParentName(cats, r[i]) != ParentName(cats, r[j]) {
        Text.LessTotal(ParentName(cats, r[i]), ParentName(cats, r[j]));
      } else {
        Text.LessTotal(Name(cats, r[i]), Name(cats, r[j]));
      }
    }
  }

  // ---------------------------------------------------------------------
  // The best-rated products

  /** Active and rated at least 3. */
  predicate Qualifies(p: Product) {
    p.isActive && p.rating.Some? && p.rating.value >= 3.0
  }

  function RatingOf(products: map<ProductId, Product>, id: ProductId): real {
    if id in products && products[id].rating.Some? then products[id].rating.value else 0.0
  }

  /** The qualifying products, highest rating first; products rated alike
      come in no particular order. */
  function Ranked(products: Table<Product>): (r: seq<ProductId>)
    requires products.Valid()
    ensures forall id :: id in r <==> id in products.rows && Qualifies(products.rows[id])
    ensures forall i, j | 0 <= i < j < |r| :: r[i] != r[j]
    ensures forall i, j | 0 <= i < j < |r| :: RatingOf(products.rows, r[i]) >= RatingOf(products.rows, r[j])
  {
    var before := (a: ProductId, b: ProductId) => RatingOf(products.rows, a) > RatingOf(products.rows, b);
    var ids := products.Ids(Qualifies);
    var r := Sorting.Sort(ids, before);
    Sorting.DistinctPermutation(ids, r);
    r
  }

  /** `TopProductListView`: at most five active products rated at least 3,
      each once, in non-increasing order of rating. */
  function TopProducts(products: Table<Product>): (r: seq<ProductId>)
    requires products.Valid()
    ensures |r| <= 5
    ensures forall i | 0 <= i < |r| :: r[i] in products.rows && Qualifies(products.rows[r[i]])
    ensures forall i, j | 0 <= i < j < |r| :: r[i] != r[j]
    ensures forall i, j | 0 <= i < j < |r| :: RatingOf(products.rows, r[i]) >= RatingOf(products.rows, r[j])
  {
    var ranked := Ranked(products);
    var r := Sorting.Take(ranked, 5);
    assert forall i | 0 <= i < |r| :: r[i] in ranked by {
      forall i | 0 <= i < |r| ensures r[i] in ranked {
        assert ranked[i] in ranked;
      }
    }
    r
  }

  /** Nothing better is left out: a qualifying product missing from the top
      list means the list is full and every listed product is rated at least
      as high. */
  lemma TopProductsAreTop(products: Table<Product>, id: ProductId)
    requires products.Valid()
    requires id in products.rows && Qualifies(products.rows[id])
    requires id !in TopProducts(products)
    ensures |TopProducts(products)| == 5
    ensures forall x | x in TopProducts(products) ::
              products.rows[x].rating.value >= products.rows[id].rating.value
  {
  }
}
