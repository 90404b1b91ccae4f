/**
 * The card index: `build_annoy_index` turns every entry of the hash database
 * into one item of an Annoy index, in database order, and `find_matching_card`
 * maps the position of the nearest item back to the card id at that position.
 * The Annoy index is modelled by the items it holds; its search is supplied
 * as a function.
 */
module CardIndex {
  import opened Options
  import opened Fingerprint

  /** The dimension the index is created with and loaded with. */
  const IndexDimension: nat := 3072

  /** Trees built by `build`. */
  const TreeCount: nat := 10

  /** Neighbours asked of a search. */
  const NeighbourCount: nat := 5

  /** The hex strings stored for a card. */
  datatype StoredHashes = StoredHashes(phash: string, ahash: string, dhash: string)

  /** One card of the hash database: its id and its stored hashes. */
  datatype Entry = Entry(id: string, hashes: StoredHashes)

  /** The hash database in file order, as the loaded JSON object iterates. */
  type Database = seq<Entry>

  /** `list(hash_db.keys())`: the card ids in database order. */
  function Keys(db: Database): (ks: seq<string>)
    ensures |ks| == |db|
  {
    seq(|db|, i requires 0 <= i < |db| => db[i].id)
  }

  /** A vector of n zeros. */
  function Zeros(n: nat): seq<real>
  {
    seq(n, i requires 0 <= i < n => 0.0)
  }

  /**
   * The items after `add_item(i, v)`: item i is v, the others are kept, and
   * positions skipped over up to i hold zero vectors.
   */
  function Placed(items: seq<seq<real>>, i: nat, v: seq<real>, f: nat): (r: seq<seq<real>>)
    ensures |r| == if i < |items| then |items| else i + 1
    ensures r[i] == v
    ensures forall j :: 0 <= j < |items| && j != i ==> r[j] == items[j]
    ensures forall j :: |items| <= j < i ==> r[j] == Zeros(f)
  {
    if i < |items| then items[i := v]
    else items + seq(i - |items|, j requires 0 <= j < i - |items| => Zeros(f)) + [v]
  }

  /** An Annoy index over vectors of a fixed dimension, with Euclidean distance. */
  class AnnoyIndex {
    const dimension: nat
    var items: seq<seq<real>>
    var built: bool

    /** Every item has the index's dimension. */
    predicate Valid()
      reads this
    {
      forall i :: 0 <= i < |items| ==> |items[i]| == dimension
    }

    /** `AnnoyIndex(f, 'euclidean')`: an empty index, not built. */
    constructor (f: nat)
      ensures dimension == f && items == [] && !built && Valid()
    {
      dimension := f;
      items := [];
      built := false;
    }

    /** `add_item(i, v)`: the library refuses vectors of another length and additions to a built index. */
    method AddItem(i: nat, v: seq<real>)
      requires Valid() && !built && |v| == dimension
      modifies this
      ensures Valid() && !built
      ensures items == Placed(old(items), i, v, dimension)
    {
      items := Placed(items, i, v, dimension);
    }

    /** `build(n_trees)`: the items are fixed from now on. */
    method Build(trees: nat)
      requires Valid() && !built
      modifies this
      ensures Valid() && built && items == old(items)
    {
      built := true;
    }
  }

  /**
   * The embedding the builder stores for an entry. All three stored hashes are
   * decoded, but all three vectors are computed from the decoded phash: the
   * decoded ahash and dhash are not used.
   */
  function StoredEmbedding<Hash>(h: Hashers<Hash>, decode: string -> Hash, s: StoredHashes): (e: seq<real>)
    ensures |e| == IndexDimension
  {
    Embedding(h, decode(s.phash))
  }

  /** The items of the built index: one per database entry, in database order. */
  function IndexItems<Hash>(h: Hashers<Hash>, decode: string -> Hash, db: Database): seq<seq<real>>
  {
    seq(|db|, i requires 0 <= i < |db| => StoredEmbedding(h, decode, db[i].hashes))
  }

  /**
   * Entry i of the database is item i of the index and id i of the key list,
   * and every item is a 0/1 vector of the index's dimension.
   */
  lemma IdMapping<Hash>(h: Hashers<Hash>, decode: string -> Hash, db: Database)
    ensures |IndexItems(h, decode, db)| == |Keys(db)| == |db|
    ensures forall i :: 0 <= i < |db| ==>
      && Keys(db)[i] == db[i].id
      && IndexItems(h, decode, db)[i] == StoredEmbedding(h, decode, db[i].hashes)
      && |IndexItems(h, decode, db)[i]| == IndexDimension
      && IsBinary(IndexItems(h, decode, db)[i])
  {
    forall i | 0 <= i < |db|
      ensures |IndexItems(h, decode, db)[i]| == IndexDimension
      ensures IsBinary(IndexItems(h, decode, db)[i])
    {
      EmbeddingLayout(h, decode(db[i].hashes.phash));
    }
  }

  /**
   * What the builder stores depends on the stored phash alone: entries that
   * agree on it get the same item whatever their stored ahash and dhash, and
   * the second and third parts of the item are the average and difference
   * hashes of the decoded phash.
   */
  lemma StoredEmbeddingUsesPhashOnly<Hash>(h: Hashers<Hash>, decode: string -> Hash, s: StoredHashes, t: StoredHashes)
    requires s.phash == t.phash
    ensures StoredEmbedding(h, decode, s) == StoredEmbedding(h, decode, t)
    ensures var e := StoredEmbedding(h, decode, s);
      && |e| == EmbeddingDim
      && Unflatten(e[..HashBits]) == h.phash(decode(s.phash))
      && Unflatten(e[HashBits..2 * HashBits]) == h.ahash(decode(s.phash))
      && Unflatten(e[2 * HashBits..]) == h.dhash(decode(s.phash))
  {
    EmbeddingLayout(h, decode(s.phash));
  }

  /**
   * `build_annoy_index`: add the embedding of entry i as item i and its id as
   * `card_ids[i]`, then build the index with ten trees.
   */
  method BuildAnnoyIndex<Hash>(h: Hashers<Hash>, decode: string -> Hash, db: Database)
    returns (index: AnnoyIndex, cardIds: seq<string>)
    ensures fresh(index) && index.Valid() && index.built && index.dimension == IndexDimension
    ensures index.items == IndexItems(h, decode, db)
    ensures cardIds == Keys(db)
  {
    index := new AnnoyIndex(IndexDimension);
    cardIds := [];
    for i := 0 to |db|
      invariant fresh(index) && index.Valid() && !index.built && index.dimension == IndexDimension
      invariant index.items == IndexItems(h, decode, db[..i])
      invariant cardIds == Keys(db[..i])
    {
      var stored := db[i].hashes;
      var storedPhash := decode(stored.phash);
      var storedAhash := decode(stored.ahash);
      var storedDhash := decode(stored.dhash);
      var vectors := ComputeRobustHash(h, storedPhash);
      var embedding := Concatenate(vectors);
      EmbeddingLayout(h, storedPhash);
      index.AddItem(i, embedding);
      cardIds := cardIds + [db[i].id];
      assert index.items == IndexItems(h, decode, db[..i + 1]);
    }
    assert db[..|db|] == db;
    index.Build(TreeCount);
  }

  /** A search result: the position of an item and its distance from the query. */
  datatype Neighbour = Neighbour(position: nat, distance: real)

  /**
   * `get_nns_by_vector(v, n, include_distances=True)` on an index holding the
   * given items: up to n neighbours, nearest first. Annoy's search is
   * approximate and is not modelled beyond this shape.
   */
  type Search = (seq<seq<real>>, seq<real>, nat) -> seq<Neighbour>

  /** Why a lookup fails: no neighbour came back, or its position has no key (Python's IndexError). */
  datatype LookupError = NoNeighbours | NoSuchCard(position: nat)

  /**
   * `find_matching_card`: hash the detected card, search the loaded index for
   * the nearest items, and return the database key at the position of the
   * first one.
   */
  function FindMatchingCard<Image>(h: Hashers<Image>, image: Image, db: Database,
                                   loaded: seq<seq<real>>, search: Search): (r: Result<string, LookupError>)
    ensures var ns := search(loaded, Embedding(h, image), NeighbourCount);
      && (r.Ok? <==> |ns| > 0 && ns[0].position < |db|)
      && (r.Ok? ==> r.value == db[ns[0].position].id)
  {
    var embedding := Embedding(h, image);
    var neighbours := search(loaded, embedding, NeighbourCount);
    if |neighbours| == 0 then Err(NoNeighbours)
    else
      var best := neighbours[0].position;
      var keys := Keys(db);
      if best < |keys| then Ok(keys[best]) else Err(NoSuchCard(best))
  }

  /**
   * Build and lookup agree when they read the same database: the query has
   * the index's dimension, and when the search returns an item of the index
   * first, the card found is the entry that item was built from.
   */
  lemma BuildAndLookupAgree<Hash, Image>(hh: Hashers<Hash>, decode: string -> Hash, db: Database,
                                         h: Hashers<Image>, image: Image, search: Search)
    ensures |Embedding(h, image)| == IndexDimension
    ensures var items := IndexItems(hh, decode, db);
      var ns := search(items, Embedding(h, image), NeighbourCount);
      && (|ns| == 0 ==> FindMatchingCard(h, image, db, items, search) == Err(NoNeighbours))
      && (|ns| > 0 && ns[0].position < |items| ==>
        && FindMatchingCard(h, image, db, items, search) == Ok(db[ns[0].position].id)
        && items[ns[0].position] == StoredEmbedding(hh, decode, db[ns[0].position].hashes))
  {
    EmbeddingLayout(h, image);
    IdMapping(hh, decode, db);
  }
}
