/** `src/store/productStore.ts`: likes of products and the per-(user, key)
    affinity they feed, and the product recommender. A product's affinity
    keys are `category:<c>`, then its tags. */
module ProductStore {
  import opened Storage
  import opened Db
  import opened Affinity
  import opened Recommender

  /** How many products the recommender returns at most. */
  const RECOMMENDED_COUNT: nat := 6

  /** The part of a product the affinity keys come from. An absent `tags` is
      the empty list (`?? []`); an absent `category` is "", which is falsy
      like `undefined`. */
  datatype Product = Product(category: string, tags: seq<string>)

  /** The keys `getAffinityKeys(product)` returns. */
  function AffinityKeys(product: Product): seq<string> {
    (if product.category != "" then ["category:" + product.category] else []) + product.tags
  }

  /** The category key comes first exactly when there is a category, then
      the tags, unchanged and in order. */
  lemma AffinityKeysLayout(product: Product)
    ensures var keys := AffinityKeys(product);
      var c := if product.category != "" then 1 else 0;
      && |keys| == c + |product.tags|
      && (product.category != "" ==> keys[0] == "category:" + product.category)
      && keys[c..] == product.tags
  {
  }

  /** `getAffinityKeys(product)`: push the category key, then push each tag. */
  method GetAffinityKeys(product: Product) returns (keys: seq<string>)
    ensures keys == AffinityKeys(product)
  {
    keys := [];
    if product.category != "" {
      keys := keys + ["category:" + product.category];
    }
    ghost var head := keys;
    var i := 0;
    while i < |product.tags|
      invariant 0 <= i <= |product.tags|
      invariant keys == head + product.tags[..i]
    {
      assert product.tags[..i + 1] == product.tags[..i] + [product.tags[i]];
      keys := keys + [product.tags[i]];
      i := i + 1;
    }
    assert product.tags[..i] == product.tags;
  }

  /** `addProductLike(userId, productId, product)`; `now` is `Date.now()`. */
  method AddProductLike(db: Db, userId: int, productId: int, product: Product, now: int, fault: Fault) returns (out: Outcome)
    requires db.Valid()
    modifies db`productLikes, db`productAffinity
    ensures db.Valid()
    ensures LikeWritten(old(db.productLikes), old(db.productAffinity), db.productLikes, db.productAffinity, out,
                        userId, productId, AffinityKeys(product), now, fault)
  {
    var keys := GetAffinityKeys(product);
    var likes, scores;
    likes, scores, out := AddLike(db.productLikes, db.productAffinity, userId, productId, keys, now, fault);
    db.productLikes, db.productAffinity := likes, scores;
  }

  /** `removeProductLike(userId, productId)`: the affinity rows are not touched. */
  method RemoveProductLike(db: Db, userId: int, productId: int, fault: Fault) returns (out: Outcome)
    requires db.Valid()
    modifies db`productLikes
    ensures db.Valid()
    ensures LikeRemoved(old(db.productLikes), db.productLikes, out, userId, productId, fault)
  {
    db.productLikes, out := RemoveLike(db.productLikes, userId, productId, fault);
  }

  /** `getLikedProductIds(userId)`. */
  method GetLikedProductIds(db: Db, userId: int, fault: Fault) returns (r: Result<seq<int>>)
    ensures r == (if fault.FailAt? then Failed else Ok(LikedIds(db.productLikes, userId)))
  {
    r := GetLikedIds(db.productLikes, userId, fault);
  }

  /** `getProductAffinityScores(userId)`: each key the user has a row for,
      mapped to the sum of those rows' scores. */
  method GetProductAffinityScores(db: Db, userId: int, fault: Fault) returns (r: Result<map<string, int>>)
    ensures fault.FailAt? <==> r.Failed?
    ensures r.Ok? ==> r.value == ScoreMap(ScoresOf(db.productAffinity.rows, userId))
    ensures r.Ok? ==> forall k :: (k in r.value <==> Present(db.productAffinity.rows, userId, k))
    ensures r.Ok? ==> forall k :: Get0(r.value, k) == Total(db.productAffinity.rows, userId, k)
  {
    r := GetScores(db.productAffinity, userId, fault);
  }

  /** `product ? getAffinityKeys(product) : []` for the product with id `id`. */
  function KeysOf(productsById: map<int, Product>): int -> seq<string> {
    id => if id in productsById then AffinityKeys(productsById[id]) else []
  }

  /** The affinity score of product `id`. */
  function ProductScore(productsById: map<int, Product>, affinityScores: map<string, int>, id: int): int {
    Score(affinityScores, KeysOf(productsById), id)
  }

  /** `scoreProductsByAffinity(productIds, productsById, affinityScores, likedSet)`:
      at most six products from `productIds`, none liked, none missing from
      `productsById`, each with a positive affinity score, in non-increasing
      score order. */
  function ScoreProductsByAffinity(productIds: seq<int>, productsById: map<int, Product>, affinityScores: map<string, int>, likedSet: set<int>): (r: seq<int>)
    ensures |r| <= RECOMMENDED_COUNT
    ensures forall i :: 0 <= i < |r| ==>
      && r[i] in productIds && r[i] !in likedSet && r[i] in productsById
      && ProductScore(productsById, affinityScores, r[i]) > 0
    ensures forall i, j :: 0 <= i < j < |r| ==>
      ProductScore(productsById, affinityScores, r[i]) >= ProductScore(productsById, affinityScores, r[j])
  {
    var r := Recommend(productIds, KeysOf(productsById), affinityScores, likedSet, RECOMMENDED_COUNT);
    RecommendSound(productIds, KeysOf(productsById), affinityScores, likedSet, RECOMMENDED_COUNT);
    assert forall id :: id !in productsById ==> ProductScore(productsById, affinityScores, id) == 0;
    r
  }
}
