# PokemonCardScanner card pipeline, modelled in Dafny

This project models the discrete logic of `app.py` in PokemonCardScanner, a
Flask service that takes a photo of trading cards and reports which card each
one is. The pipeline has three stages, and each has a model here:

- **Detection.** `detect_edges_and_corners` segments the image into masks.
  It reduces each of the first ten masks to a quadrilateral with
  `process_full_mask`. It puts the four corners in a fixed order with
  `sort_rectangle_points` and warps each card onto an upright 500 by 700
  rectangle.
- **Fingerprint.** `compute_robust_hash` turns an image into three 32 by 32
  perceptual hashes: phash, average hash and difference hash. Each is
  flattened to 1024 entries of 0.0 or 1.0, and the three are concatenated
  into a 3072-entry embedding.
- **Lookup.** `build_annoy_index` is meant to store one embedding per card of
  the hash database in an Annoy index (see "## Left out" on whether it gets
  that far). `find_matching_card` maps the position of the
  nearest neighbour of a detected card back to a card id.

Modules, one per file:

- `Options` (`options.dfy`): `Option` and `Result`.
- `Points` (`points.dfy`): points with real coordinates, and polygons.
- `Argsort` (`argsort.dfy`): what `np.argsort` may return, `a[idx]` indexing,
  and a stable argsort that is one of those results.
- `PointOrder` (`point_order.dfy`): `sort_rectangle_points`.
- `MaskQuad` (`mask_quad.dfy`): `process_full_mask`. The OpenCV calls are
  the fields of a `Geometry` value.
- `CardDetection` (`card_detection.dfy`): the mask loop of
  `detect_edges_and_corners`.
- `Fingerprint` (`fingerprint.dfy`): `compute_robust_hash` and the embedding
  layout. The imagehash functions are the fields of a `Hashers` value.
- `CardIndex` (`card_index.dfy`): the Annoy index as a class, the index
  builder, and the lookup.

How `np.argsort` is modelled:

- Its default sort is not stable, so `sort_rectangle_points` is taken
  together with the index sequences argsort returned. `ValidArgsorts`
  admits every tie-break.
- The detection pipeline uses the stable argsort `StableArgsorts`, which is
  proved to be one of those admitted results.
- Every lemma about `SortRectanglePoints` that takes the index sequences as
  an argument requires `ValidArgsorts` of them and so holds for any
  tie-break. `RectangleArgsortsValid` and `RectangleInOrder` are helpers
  about one fixed choice of index sequences, used to prove
  `RectangleCornersInAnyOrder`.

Two things the code does that its comments do not say:

- `build_annoy_index` decodes the stored phash, ahash and dhash of every
  card. It then computes all three vectors from the decoded phash
  (app.py:204), so the stored ahash and dhash never reach the index.
  `StoredEmbedding` models this as written, and
  `StoredEmbeddingUsesPhashOnly` states it.
- The comment at app.py:192 speaks of 768 dimensions. The index is created
  and loaded with 3072 (app.py:193, app.py:241), which is the embedding
  length `EmbeddingLayout` proves.

## Model

| member | source | states |
|---|---|---|
| Argsort.ArgsortSorts | app.py:152-157 | the points selected by an argsort of a key column are the same points, in non-decreasing key order |
| Argsort.StableArgsortIsArgsort | app.py:152 | the stable argsort lists each position once in key order, so it is a result `np.argsort` may give |
| Argsort.SortedPermutationsEqual | app.py:155-157 | two key-ordered rearrangements of the same elements with distinct keys are equal |
| PointOrder.StableArgsorts | app.py:152-157 | the three stable argsorts are index sequences `np.argsort` may return for the y column and for the x column of each pair |
| PointOrder.SortRectanglePoints | app.py:145-161 | its contract only gives the output's length and that each output point is an input point; `SortRectanglePointsCorners` and `SortRectanglePointsOrderIndependent` state its properties |
| PointOrder.SortRectanglePointsCorners | app.py:145-161 | the output is a permutation of the 4 input points; neither of its first two points has a larger y than either of its last two; out[0].x <= out[1].x and out[2].x >= out[3].x |
| PointOrder.SortRectanglePointsOrderIndependent | app.py:145-161 | if exactly two points lie above some horizontal line and the x values differ on each side, the output depends neither on input order nor on argsort tie-breaks |
| PointOrder.RectangleCornersInAnyOrder | app.py:145-161 | the corners of any axis-parallel rectangle, in any order and under any tie-break, come out as top-left, top-right, bottom-right, bottom-left |
| PointOrder.OutlineInAnyOrder | app.py:145-161 | (0,0),(100,0),(100,140),(0,140) in any order comes out as exactly that sequence |
| MaskQuad.Linspace | app.py:41 | `np.linspace`: num values from start to stop, both included, evenly spaced |
| MaskQuad.SweepFactorsAscending | app.py:41 | the sweep tolerances are 0.01, 0.02, ..., 0.1: ten values, strictly increasing |
| MaskQuad.LargestIndex | app.py:29 | `max(contours, key=contourArea)` picks a contour of greatest area, and the first such contour |
| MaskQuad.Approximate | app.py:34-43 | `approxPolyDP` of the closed contour at factor times its closed `arcLength`; no contract, `QuadOfCases` and `FirstQuadIsFirstSuccess` state how it is used |
| MaskQuad.FirstQuad | app.py:41-45 | what the sweep yields is either nothing or a polygon of exactly 4 vertices |
| MaskQuad.FirstQuadIsFirstSuccess | app.py:41-45 | the sweep yields nothing exactly when no tolerance gives 4 vertices; otherwise it yields the hull approximation at the first tolerance that does |
| MaskQuad.QuadOf | app.py:12-54 | `process_full_mask` returns None or a polygon with exactly 4 vertices |
| MaskQuad.QuadOfCases | app.py:24-50 | None without contours; the approximation at 0.02 of the largest contour's perimeter unchanged when it has 4 vertices; otherwise the first 4-vertex hull approximation of the ascending sweep, or None when there is none |
| MaskQuad.ProcessFullMask | app.py:12-54 | the loop with its early break returns exactly the result `QuadOfCases` characterises |
| CardDetection.Take | app.py:97 | `masks[:10]` is the first min(10, len(masks)) masks: all of a shorter list, the first ten of a longer one |
| CardDetection.ScaleOf | app.py:111-112 | the factors `img.shape / 640` are positive for an image of positive width and height |
| CardDetection.Scaled | app.py:113 | each point scaled coordinate by coordinate; the contract gives only the length, `CardFor` states what the card keeps of it |
| CardDetection.CardFor | app.py:110-134 | a card's corners are the quadrilateral scaled to the original image and rearranged, top pair above bottom pair, top left to right, bottom right to left; its destination is (0,0),(499,0),(499,699),(0,699) and its size 500 by 700 |
| CardDetection.MaskCard | app.py:104-136 | a mask gives a card exactly when `process_full_mask` finds a quadrilateral in it, and that card has the fixed destination and size |
| CardDetection.CardsOf | app.py:95-136 | at most one card per mask; `CardsFollowMasks` states which card comes from which mask |
| CardDetection.DestinationInCornerOrder | app.py:117-131 | the destination is the 500 by 700 rectangle (0,0),(499,0),(499,699),(0,699), listed in the order corners are sorted into, so sorted corner i is sent to destination corner i |
| CardDetection.CollectFollowsHits | app.py:104-136 | the k-th value kept by the loop comes from the k-th element that yields one |
| CardDetection.CardsFollowMasks | app.py:97-136 | a mask contributes a card exactly when its quadrilateral is not None; the cards follow mask order and each comes from its own mask |
| CardDetection.CardsOfSnoc | app.py:104-136 | one more mask appends its card at the end, if it yields one |
| CardDetection.DetectEdgesAndCorners | app.py:95-136 | the loop keeps one card per quadrilateral among the first ten masks, in mask order; there are at most min(10, number of masks) cards, and every card is warped onto the fixed destination at 500 by 700 |
| Fingerprint.FlattenRowsAt | app.py:175 | row-major flattening puts bit (r, c) at position 32r + c |
| Fingerprint.Flatten | app.py:175-177 | a flattened hash has 1024 entries, each 0.0 or 1.0, with bit (r, c) at 32r + c |
| Fingerprint.UnflattenFlatten | app.py:175-177 | flattening loses nothing: the hash grid is read back from its vector |
| Fingerprint.FlattenUnflatten | app.py:175-177 | every 1024-entry 0/1 vector is the flattening of a hash grid |
| Fingerprint.ComputeRobustHash | app.py:164-179 | three vectors of 1024 entries, each 0.0 or 1.0, from which the phash, average hash and difference hash of the input are read back |
| Fingerprint.Concatenate | app.py:207 | the concatenation is as long as its three parts together; `SplitConcatenate` gives the parts back |
| Fingerprint.Embedding | app.py:238 | an embedding has 3072 entries; `EmbeddingLayout` states where each hash lies |
| Fingerprint.SplitConcatenate | app.py:207 | concatenating three 1024-entry vectors can be undone by position |
| Fingerprint.EmbeddingLayout | app.py:164-179 | an embedding has 3072 entries, each 0.0 or 1.0: phash bits at 0-1023, average hash at 1024-2047, difference hash at 2048-3071, each row-major and readable back |
| CardIndex.Keys | app.py:253 | one key per database entry; `IdMapping` states that key i is the id of entry i |
| CardIndex.StoredEmbedding | app.py:199-207 | the stored item has 3072 entries; `StoredEmbeddingUsesPhashOnly` states that it depends on the stored phash alone |
| CardIndex.Placed | app.py:210 | after `add_item(i, v)`, item i is v, other items are kept, and skipped positions hold zero vectors |
| CardIndex.AnnoyIndex.constructor | app.py:193 | a new index has the dimension it is created with (3072 here) and no items, and is not built |
| CardIndex.AnnoyIndex.AddItem | app.py:210 | adding a vector of the index's dimension places it at position i and keeps every item at the index's dimension |
| CardIndex.AnnoyIndex.Build | app.py:214 | building fixes the items as they are |
| CardIndex.IdMapping | app.py:196-211 | entry i of the database is item i and card id i; every item is a 0/1 vector of 3072 entries |
| CardIndex.StoredEmbeddingUsesPhashOnly | app.py:199-207 | the stored item depends on the stored phash alone; its three parts are the phash, average hash and difference hash of the decoded phash |
| CardIndex.BuildAnnoyIndex | app.py:182-217 | the built index has dimension 3072 and holds the embedding of entry i at position i; `card_ids` lists the database keys in order |
| CardIndex.FindMatchingCard | app.py:235-253 | the lookup succeeds exactly when the search returns a neighbour whose position has a database key, and the card id at that position is returned |
| CardIndex.BuildAndLookupAgree | app.py:238-253 | a query has the dimension of the built index; when the first neighbour is an item of the built index, the card found is the entry that item was built from |

## Left out

- The Flask app, its `/upload` route, CORS and JSON responses (app.py:258-287): HTTP plumbing.
- YOLO loading and prediction, and the conversion of mask tensors to binary arrays (app.py:64-66, 85-89, 100). The masks are an input of the mask loop, with true for 255.
- Image decoding and the `img is None` early return, colour conversion, resizing and drawing (app.py:70-80, 90, 108). The size of the original image is an input of the mask loop.
- `getPerspectiveTransform` and `warpPerspective` (app.py:131-134) are foreign numerics. A card records the corners, the destination and the output size that are passed to them, not the warped pixels.
- Floating point: coordinates are reals. The float32 conversion of the scaled corners (app.py:127) and float32 rounding of the embeddings are not modelled.
- The internals of `morphologyEx`, `findContours`, `contourArea`, `convexHull`, `arcLength` and `approxPolyDP` (app.py:19-43): each is a function in `MaskQuad.Geometry` about which nothing is assumed.
- The imagehash algorithms and `hex_to_hash` (app.py:170-172, 199-201): abstract functions that produce 32 by 32 bit grids. Decoding is total: a malformed hex string is not modelled.
- `ImageHash` objects given to the hash functions: the builder passes a decoded hash where an image is expected (app.py:204). imagehash's `phash`, `average_hash` and `dhash` call image methods such as `convert` on their argument, which a decoded hash does not have, so as written the builder most likely raises on the first entry of any non-empty database and never returns. CardIndex.BuildAnnoyIndex models the path on which those calls return: it applies the same hashers to the decoded hash and does not model the failure. This rests on library code that is not part of this model.
- Annoy's trees, random projections, `save` and `load` (app.py:214-215, 241-242): the index is its list of items, and the loaded index is an input of the lookup.
- CardIndex.FindMatchingCard: the approximate search (app.py:245) is a parameter returning any list of neighbours. The lookup does not promise the true nearest card, only the id mapping.
- PointOrder.SortRectanglePoints: numpy's default argsort tie order is not modelled. The lemmas hold for every tie-break, and the pipeline uses a stable argsort, which is one of them.
- JSON file reading, timing and `print` logging throughout: I/O.
