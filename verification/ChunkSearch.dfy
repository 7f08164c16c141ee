/** Searching a file chunk by chunk: `_contains_any` and `_contains_all` of
    oss_crs/src/cli/list_harnesses.py. */
module ChunkSearch {
  type Bytes = seq<bv8>

  predicate OccursAt(needle: Bytes, text: Bytes, i: nat) {
    i + |needle| <= |text| && text[i..i + |needle|] == needle
  }

  /** The needle is somewhere in the text. */
  predicate Occurs(needle: Bytes, text: Bytes) {
    exists i | 0 <= i <= |text| :: OccursAt(needle, text, i)
  }

  predicate AnyOccurs(needles: seq<Bytes>, text: Bytes) {
    exists n | n in needles :: Occurs(n, text)
  }

  /** One less than the longest needle; -1 when all needles are empty. */
  function Overlap(needles: seq<Bytes>): (o: int)
    ensures -1 <= o
    ensures forall n :: n in needles ==> |n| <= o + 1
  {
    if needles == [] then 0 else MaxLength(needles) - 1
  }

  function MaxLength(needles: seq<Bytes>): (m: nat)
    requires needles != []
    ensures forall n :: n in needles ==> |n| <= m
  {
    if |needles| == 1 then |needles[0]|
    else
      var rest := MaxLength(needles[1..]);
      assert forall n :: n in needles ==> n == needles[0] || n in needles[1..];
      if |needles[0]| > rest then |needles[0]| else rest
  }

  /** The last bytes of the window, as many as the overlap; a negative overlap drops bytes at the front. */
  function Tail(window: Bytes, overlap: int): Bytes
    requires overlap >= -1
  {
    if overlap == 0 then []
    else if overlap == -1 then (if window == [] then [] else window[1..])
    else if overlap >= |window| then window
    else window[|window| - overlap..]
  }

  /** The file as far as it was read. */
  function Flatten(chunks: seq<Bytes>): Bytes {
    if chunks == [] then [] else Flatten(chunks[..|chunks| - 1]) + chunks[|chunks| - 1]
  }

  /** `_contains_any`: the chunks are the successive non-empty reads, up to the end of the file or
      to an error. True exactly when something was read and some needle occurs in it. */
  method ContainsAny(chunks: seq<Bytes>, needles: seq<Bytes>) returns (found: bool)
    requires forall c :: c in chunks ==> c != []
    ensures found <==> Flatten(chunks) != [] && AnyOccurs(needles, Flatten(chunks))
  {
    var overlap := Overlap(needles);
    var previous: Bytes := [];
    for i := 0 to |chunks|
      invariant previous == Tail(Flatten(chunks[..i]), overlap)
      invariant i > 0 ==> !AnyOccurs(needles, Flatten(chunks[..i]))
    {
      var read := Flatten(chunks[..i]);
      assert chunks[..i + 1][..i] == chunks[..i];
      assert Flatten(chunks[..i + 1]) == read + chunks[i];
      var window := previous + chunks[i];
      assert chunks[i] in chunks;
      WindowSuffices(read, chunks[i], needles);
      if AnyOccurs(needles, window) {
        FlattenPrefix(chunks, i + 1);
        AnyOccursExtends(needles, Flatten(chunks[..i + 1]), Flatten(chunks));
        return true;
      }
      if overlap == -1 {
        EmptyNeedleOccurs(needles, window);
        assert false;
      }
      TailOfWindow(read, chunks[i], overlap);
      previous := Tail(window, overlap);
    }
    assert chunks[..|chunks|] == chunks;
    return false;
  }

  /** When the overlap is -1 there is an empty needle, so the search ends with the first chunk. */
  lemma EmptyNeedleOccurs(needles: seq<Bytes>, text: Bytes)
    requires Overlap(needles) == -1
    ensures AnyOccurs(needles, text)
  {
    assert needles[0] in needles && needles[0] == [];
    assert OccursAt([], text, 0);
    assert Occurs([], text);
  }

  lemma {:induction false} FlattenPrefix(chunks: seq<Bytes>, k: nat)
    requires k <= |chunks|
    ensures Flatten(chunks[..k]) <= Flatten(chunks)
    decreases |chunks|
  {
    if k < |chunks| {
      FlattenPrefix(chunks[..|chunks| - 1], k);
      assert chunks[..|chunks| - 1][..k] == chunks[..k];
    } else {
      assert chunks[..k] == chunks;
    }
  }

  lemma AnyOccursExtends(needles: seq<Bytes>, text: Bytes, longer: Bytes)
    requires text <= longer && AnyOccurs(needles, text)
    ensures AnyOccurs(needles, longer)
  {
    var n :| n in needles && Occurs(n, text);
    var i :| 0 <= i <= |text| && OccursAt(n, text, i);
    assert longer[i..i + |n|] == text[i..i + |n|];
    assert OccursAt(n, longer, i);
  }

  /** The heart of the sliding window: a needle that ends in the new chunk starts at most
      length - 1 bytes before it, and what is kept of the earlier bytes reaches that far. */
  lemma WindowSuffices(read: Bytes, chunk: Bytes, needles: seq<Bytes>)
    requires chunk != [] && (read == [] || !AnyOccurs(needles, read))
    ensures AnyOccurs(needles, Tail(read, Overlap(needles)) + chunk) <==> AnyOccurs(needles, read + chunk)
  {
    var overlap := Overlap(needles);
    var kept := Tail(read, overlap);
    var cut := |read| - |kept|;
    assert kept == read[cut..];
    if AnyOccurs(needles, kept + chunk) {
      var n :| n in needles && Occurs(n, kept + chunk);
      var i :| 0 <= i <= |kept + chunk| && OccursAt(n, kept + chunk, i);
      ShiftedOccurs(read, chunk, cut, n, i);
    }
    if AnyOccurs(needles, read + chunk) {
      var n :| n in needles && Occurs(n, read + chunk);
      var i :| 0 <= i <= |read + chunk| && OccursAt(n, read + chunk, i);
      if i + |n| <= |read| && read != [] {
        assert (read + chunk)[i..i + |n|] == read[i..i + |n|];
        assert OccursAt(n, read, i) && Occurs(n, read);
      } else {
        ReachesBack(read, chunk, overlap, n, i);
        UnshiftedOccurs(read, chunk, cut, n, i);
      }
    }
  }

  lemma ReachesBack(read: Bytes, chunk: Bytes, overlap: int, n: Bytes, i: nat)
    requires overlap >= -1 && |n| <= overlap + 1
    requires i + |n| > |read| || read == []
    ensures i >= |read| - |Tail(read, overlap)|
  {
  }

  lemma ShiftedOccurs(read: Bytes, chunk: Bytes, cut: nat, n: Bytes, i: nat)
    requires cut <= |read| && OccursAt(n, read[cut..] + chunk, i)
    ensures Occurs(n, read + chunk)
  {
    assert (read + chunk)[cut + i..cut + i + |n|] == (read[cut..] + chunk)[i..i + |n|];
    assert OccursAt(n, read + chunk, cut + i);
  }

  lemma UnshiftedOccurs(read: Bytes, chunk: Bytes, cut: nat, n: Bytes, i: nat)
    requires cut <= |read| && cut <= i && OccursAt(n, read + chunk, i)
    ensures Occurs(n, read[cut..] + chunk)
  {
    assert (read + chunk)[i..i + |n|] == (read[cut..] + chunk)[i - cut..i - cut + |n|];
    assert OccursAt(n, read[cut..] + chunk, i - cut);
  }

  /** The tail of the window is the tail of everything read. */
  lemma TailOfWindow(read: Bytes, chunk: Bytes, overlap: int)
    requires overlap >= 0
    ensures Tail(Tail(read, overlap) + chunk, overlap) == Tail(read + chunk, overlap)
  {
  }

  /** `_contains_all`: each needle is searched for by itself. */
  method ContainsAll(chunks: seq<Bytes>, needles: seq<Bytes>) returns (found: bool)
    requires forall c :: c in chunks ==> c != []
    ensures found <==> forall n :: n in needles ==> Flatten(chunks) != [] && Occurs(n, Flatten(chunks))
  {
    for i := 0 to |needles|
      invariant forall j :: 0 <= j < i ==> Flatten(chunks) != [] && Occurs(needles[j], Flatten(chunks))
    {
      var one := ContainsAny(chunks, [needles[i]]);
      assert AnyOccurs([needles[i]], Flatten(chunks)) <==> Occurs(needles[i], Flatten(chunks));
      if !one {
        return false;
      }
    }
    return true;
  }

  /** The whole-file test `needle in content` differs only on an empty file: there the empty needle
      occurs, and the search says no. */
  lemma DiffersOnEmptyFile(needles: seq<Bytes>, content: Bytes)
    ensures (content != [] && AnyOccurs(needles, content)) == AnyOccurs(needles, content)
       <==> content != [] || [] !in needles
  {
    if content == [] {
      if [] in needles {
        assert OccursAt([], content, 0);
        assert Occurs([], content);
      } else {
        forall n | n in needles
          ensures !Occurs(n, content)
        {
        }
      }
    }
  }
}
