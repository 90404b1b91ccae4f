/**
 * `compute_robust_hash` and the embedding built from it: three 32 by 32
 * perceptual hashes (phash, average hash, difference hash), each flattened
 * row by row into 1024 entries of 0.0 or 1.0, concatenated in that order
 * into one 3072-entry vector.
 */
module Fingerprint {

  /** The `hash_size` passed to each hash function. */
  const HashSize: nat := 32

  /** Entries in one flattened hash. */
  const HashBits: nat := HashSize * HashSize

  /** Entries in an embedding: three flattened hashes. */
  const EmbeddingDim: nat := 3 * HashBits

  /** Each row has `HashSize` bits and there are `HashSize` rows. */
  predicate IsGrid(g: seq<seq<bool>>)
  {
    |g| == HashSize && forall r :: 0 <= r < |g| ==> |g[r]| == HashSize
  }

  /** The bit array of an image hash (`hash.hash`). */
  type HashGrid = g: seq<seq<bool>> | IsGrid(g) witness seq(HashSize, r => seq(HashSize, c => false))

  /**
   * The three hash functions of the `imagehash` library at `hash_size=32`,
   * applied to whatever they are given (an image, or in the index builder a
   * decoded hash).
   */
  datatype Hashers<!Input> = Hashers(phash: Input -> HashGrid, ahash: Input -> HashGrid, dhash: Input -> HashGrid)

  /** `float(b)` for a bit. */
  function Bit(b: bool): real
  {
    if b then 1.0 else 0.0
  }

  /** Every entry is 0.0 or 1.0. */
  predicate IsBinary(v: seq<real>)
  {
    forall i :: 0 <= i < |v| ==> v[i] == 0.0 || v[i] == 1.0
  }

  /** `[float(b) for b in row]`. */
  function RowBits(row: seq<bool>): (r: seq<real>)
    ensures |r| == |row|
    ensures forall c :: 0 <= c < |row| ==> r[c] == Bit(row[c])
  {
    seq(|row|, c requires 0 <= c < |row| => Bit(row[c]))
  }

  /** The rows of `rows`, each of width `HashSize`, laid end to end, as floats. */
  function FlattenRows(rows: seq<seq<bool>>): seq<real>
    requires forall r :: 0 <= r < |rows| ==> |rows[r]| == HashSize
  {
    if rows == [] then [] else RowBits(rows[0]) + FlattenRows(rows[1..])
  }

  /** Flattening puts bit (r, c) at position r * 32 + c, as 1.0 or 0.0, and nothing else. */
  lemma {:induction false} FlattenRowsAt(rows: seq<seq<bool>>)
    requires forall r :: 0 <= r < |rows| ==> |rows[r]| == HashSize
    ensures |FlattenRows(rows)| == |rows| * HashSize
    ensures forall r, c :: 0 <= r < |rows| && 0 <= c < HashSize ==>
      FlattenRows(rows)[r * HashSize + c] == Bit(rows[r][c])
  {
    if rows != [] {
      var rest := rows[1..];
      FlattenRowsAt(rest);
      var v := FlattenRows(rows);
      assert v == RowBits(rows[0]) + FlattenRows(rest);
      forall r, c | 0 <= r < |rows| && 0 <= c < HashSize
        ensures v[r * HashSize + c] == Bit(rows[r][c])
      {
        if r > 0 {
          assert r * HashSize + c == HashSize + ((r - 1) * HashSize + c);
          assert rest[r - 1] == rows[r];
        }
      }
    }
  }

  /** Position i of a flattened hash holds row i / 32, column i % 32. */
  lemma Position(i: nat)
    requires i < HashBits
    ensures i / HashSize < HashSize && i % HashSize < HashSize
    ensures i == (i / HashSize) * HashSize + i % HashSize
  {
  }

  /** `hash.hash.flatten()` as floats: the 1024 bits of a hash, row by row. */
  function Flatten(g: HashGrid): (v: seq<real>)
    ensures |v| == HashBits && IsBinary(v)
    ensures forall r, c :: 0 <= r < HashSize && 0 <= c < HashSize ==> v[r * HashSize + c] == Bit(g[r][c])
  {
    FlattenRowsAt(g);
    var v := FlattenRows(g);
    forall i | 0 <= i < |v|
      ensures v[i] == 0.0 || v[i] == 1.0
    {
      Position(i);
      var r, c := i / HashSize, i % HashSize;
      assert v[r * HashSize + c] == Bit(g[r][c]);
    }
    v
  }

  /** The grid a flattened hash came from: entry r * 32 + c is bit (r, c). */
  function Unflatten(v: seq<real>): HashGrid
    requires |v| == HashBits
  {
    seq(HashSize, r requires 0 <= r < HashSize =>
      seq(HashSize, c requires 0 <= c < HashSize => v[r * HashSize + c] == 1.0))
  }

  /** Flattening loses nothing: the grid can be read back from the vector. */
  lemma UnflattenFlatten(g: HashGrid)
    ensures Unflatten(Flatten(g)) == g
  {
    var back := Unflatten(Flatten(g));
    forall r | 0 <= r < HashSize
      ensures back[r] == g[r]
    {
      assert forall c :: 0 <= c < HashSize ==> back[r][c] == g[r][c];
    }
  }

  /** A vector of 1024 zeros and ones is the flattening of the grid read from it. */
  lemma FlattenUnflatten(v: seq<real>)
    requires |v| == HashBits && IsBinary(v)
    ensures Flatten(Unflatten(v)) == v
  {
    var g := Unflatten(v);
    var w := Flatten(g);
    forall i | 0 <= i < HashBits
      ensures w[i] == v[i]
    {
      Position(i);
      var r, c := i / HashSize, i % HashSize;
      assert w[r * HashSize + c] == Bit(g[r][c]);
      assert g[r][c] == (v[r * HashSize + c] == 1.0);
    }
  }

  /** The three vectors `compute_robust_hash` returns. */
  datatype HashVectors = HashVectors(phash: seq<real>, ahash: seq<real>, dhash: seq<real>)

  /** `compute_robust_hash`: the three hashes of the input, each flattened. */
  function ComputeRobustHash<Input>(h: Hashers<Input>, x: Input): (v: HashVectors)
    ensures |v.phash| == HashBits && |v.ahash| == HashBits && |v.dhash| == HashBits
    ensures IsBinary(v.phash) && IsBinary(v.ahash) && IsBinary(v.dhash)
    ensures Unflatten(v.phash) == h.phash(x) && Unflatten(v.ahash) == h.ahash(x) && Unflatten(v.dhash) == h.dhash(x)
  {
    UnflattenFlatten(h.phash(x));
    UnflattenFlatten(h.ahash(x));
    UnflattenFlatten(h.dhash(x));
    HashVectors(Flatten(h.phash(x)), Flatten(h.ahash(x)), Flatten(h.dhash(x)))
  }

  /** `np.concatenate([phash, ahash, dhash])`. */
  function Concatenate(v: HashVectors): (e: seq<real>)
    ensures |e| == |v.phash| + |v.ahash| + |v.dhash|
  {
    v.phash + v.ahash + v.dhash
  }

  /** The three parts of an embedding, read back by position. */
  function Split(e: seq<real>): HashVectors
    requires |e| == EmbeddingDim
  {
    HashVectors(e[..HashBits], e[HashBits..2 * HashBits], e[2 * HashBits..])
  }

  /** Splitting a concatenation of three 1024-entry vectors gives them back. */
  lemma SplitConcatenate(v: HashVectors)
    requires |v.phash| == HashBits && |v.ahash| == HashBits && |v.dhash| == HashBits
    ensures |Concatenate(v)| == EmbeddingDim && Split(Concatenate(v)) == v
  {
    var e := Concatenate(v);
    assert e[..HashBits] == v.phash;
    assert e[HashBits..2 * HashBits] == v.ahash;
    assert e[2 * HashBits..] == v.dhash;
  }

  /** The embedding of an input: its three flattened hashes concatenated. */
  function Embedding<Input>(h: Hashers<Input>, x: Input): (e: seq<real>)
    ensures |e| == EmbeddingDim
  {
    Concatenate(ComputeRobustHash(h, x))
  }

  /**
   * The layout of an embedding: 3072 entries, each 0.0 or 1.0; entries 0 to
   * 1023 are the phash, 1024 to 2047 the average hash, 2048 to 3071 the
   * difference hash, each row by row, so each hash can be read back.
   */
  lemma EmbeddingLayout<Input>(h: Hashers<Input>, x: Input)
    ensures var e := Embedding(h, x);
      && |e| == EmbeddingDim == 3072
      && IsBinary(e)
      && Unflatten(e[..HashBits]) == h.phash(x)
      && Unflatten(e[HashBits..2 * HashBits]) == h.ahash(x)
      && Unflatten(e[2 * HashBits..]) == h.dhash(x)
      && forall r, c :: 0 <= r < HashSize && 0 <= c < HashSize ==>
        && e[r * HashSize + c] == Bit(h.phash(x)[r][c])
        && e[HashBits + r * HashSize + c] == Bit(h.ahash(x)[r][c])
        && e[2 * HashBits + r * HashSize + c] == Bit(h.dhash(x)[r][c])
  {
    var v := ComputeRobustHash(h, x);
    var e := Embedding(h, x);
    SplitConcatenate(v);
    UnflattenFlatten(h.phash(x));
    UnflattenFlatten(h.ahash(x));
    UnflattenFlatten(h.dhash(x));
    forall r, c | 0 <= r < HashSize && 0 <= c < HashSize
      ensures e[HashBits + r * HashSize + c] == Bit(h.ahash(x)[r][c])
      ensures e[2 * HashBits + r * HashSize + c] == Bit(h.dhash(x)[r][c])
    {
      assert e[HashBits..2 * HashBits][r * HashSize + c] == v.ahash[r * HashSize + c];
      assert e[2 * HashBits..][r * HashSize + c] == v.dhash[r * HashSize + c];
    }
  }
}
