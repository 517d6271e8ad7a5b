/** The value-level argument behind the streaming search: a short tail of the response is enough. */
module ResponseWindow {
  import opened Wrappers
  import opened ByteSearch

  /** `kept` is a tail of the bytes received so far that still decides where the token starts. */
  ghost predicate Window(received: seq<char>, kept: seq<char>, token: seq<char>, n: nat)
  {
    && |kept| <= |received| && kept == received[|received| - |kept|..]
    && |kept| <= |token| + n
    && (Occurs(kept, token) ==>
          IsFirst(received, token, |received| - |kept|) && |kept| < |token| + n)
    && (!Occurs(kept, token) ==>
          !Occurs(received, token) && |kept| == Min(|received|, |token| + n))
  }

  lemma OccursInTail(head: seq<char>, tail: seq<char>, token: seq<char>, i: int)
    requires 0 <= i
    ensures OccursAt(head + tail, token, |head| + i) <==> OccursAt(tail, token, i)
  {
    if i + |token| <= |tail| {
      assert (head + tail)[|head| + i..|head| + i + |token|] == tail[i..i + |token|];
    }
  }

  lemma OccursInHead(head: seq<char>, tail: seq<char>, token: seq<char>, i: int)
    requires 0 <= i && i + |token| <= |head|
    ensures OccursAt(head + tail, token, i) <==> OccursAt(head, token, i)
  {
    assert (head + tail)[i..i + |token|] == head[i..i + |token|];
  }

  /** Occurrences in everything are those in the kept tail and the new chunk, and none lies before them. */
  lemma WindowOccurrences(received: seq<char>, kept: seq<char>, chunk: seq<char>, token: seq<char>, n: nat)
    requires Window(received, kept, token, n)
    ensures var before := |received| - |kept|;
      && (forall j :: 0 <= j < before ==> !OccursAt(received + chunk, token, j))
      && (forall j :: before <= j ==>
            (OccursAt(received + chunk, token, j) <==> OccursAt(kept + chunk, token, j - before)))
  {
    var head := received[..|received| - |kept|];
    assert received + chunk == head + (kept + chunk);
    forall j | 0 <= j < |head|
      ensures !OccursAt(received + chunk, token, j)
    {
      NothingBeforeWindow(received, kept, chunk, token, n, j);
    }
    forall j | |head| <= j
      ensures OccursAt(received + chunk, token, j) <==> OccursAt(kept + chunk, token, j - |head|)
    {
      OccursInTail(head, kept + chunk, token, j - |head|);
    }
  }

  /** Searching the kept tail and the new chunk finds exactly what searching everything finds. */
  lemma SearchWindow(received: seq<char>, kept: seq<char>, chunk: seq<char>, token: seq<char>, n: nat, p: int)
    requires Window(received, kept, token, n)
    ensures IsFirst(kept + chunk, token, p) ==>
              IsFirst(received + chunk, token, |received| - |kept| + p)
    ensures !Occurs(kept + chunk, token) ==> !Occurs(received + chunk, token)
  {
    WindowOccurrences(received, kept, chunk, token, n);
  }

  lemma NothingBeforeWindow(received: seq<char>, kept: seq<char>, chunk: seq<char>, token: seq<char>, n: nat, j: int)
    requires Window(received, kept, token, n)
    requires 0 <= j < |received| - |kept|
    ensures !OccursAt(received + chunk, token, j)
  {
    if Occurs(kept, token) {
      var f := |received| - |kept|;
      if j + |token| <= |received| {
        OccursInHead(received, chunk, token, j);
      }
      assert OccursAt(received, token, f);
    } else {
      assert j + |token| <= |received|;
      OccursInHead(received, chunk, token, j);
    }
  }

  /** Enough of the response is known: later bytes cannot change the value. */
  ghost predicate Settled(received: seq<char>, token: seq<char>, n: nat, digits: seq<char>)
  {
    exists f :: IsFirst(received, token, f) && f + |token| + n <= |received|
             && digits == DigitPrefix(received[f + |token|..], n)
  }

  lemma DigitPrefixIsLocal(s: seq<char>, m: nat, n: nat)
    requires n <= m <= |s|
    ensures DigitPrefix(s[..m], n) == DigitPrefix(s, n)
  {
    DigitPrefixUnique(s, n, DigitPrefix(s[..m], n));
  }

  lemma FirstInPrefix(s: seq<char>, w: nat, token: seq<char>, p: int)
    requires w <= |s| && IsFirst(s[..w], token, p)
    ensures IsFirst(s, token, p)
  {
    assert s == s[..w] + s[w..];
    forall j | 0 <= j <= p
      ensures OccursAt(s, token, j) <==> OccursAt(s[..w], token, j)
    {
      OccursInHead(s[..w], s[w..], token, j);
    }
  }

  lemma SettledStays(received: seq<char>, chunk: seq<char>, token: seq<char>, n: nat, digits: seq<char>)
    requires Settled(received, token, n, digits)
    ensures Settled(received + chunk, token, n, digits)
  {
    var f :| IsFirst(received, token, f) && f + |token| + n <= |received|
          && digits == DigitPrefix(received[f + |token|..], n);
    var all := received + chunk;
    assert all[..|received|] == received;
    FirstInPrefix(all, |received|, token, f);
    var tail := all[f + |token|..];
    assert tail[..|received| - f - |token|] == received[f + |token|..];
    DigitPrefixIsLocal(tail, |received| - f - |token|, n);
  }

  /** The token starts at p of tail + chunk, and enough bytes from there are at hand. */
  lemma ValueAtHand(received: seq<char>, kept: seq<char>, chunk: seq<char>, token: seq<char>, n: nat,
                    p: nat, value: seq<char>)
    requires Window(received, kept, token, n)
    requires IsFirst(kept + chunk, token, p)
    requires n <= |value| && value <= (kept + chunk)[p + |token|..]
    ensures Settled(received + chunk, token, n, DigitPrefix(value, n))
  {
    SearchWindow(received, kept, chunk, token, n, p);
    var f := |received| - |kept| + p;
    var tail := (received + chunk)[f + |token|..];
    assert tail == (kept + chunk)[p + |token|..];
    assert tail[..|value|] == value;
    DigitPrefixIsLocal(tail, |value|, n);
  }

  /** The token starts at p of tail + chunk, and the value may still be cut short. */
  lemma ValueToCome(received: seq<char>, kept: seq<char>, chunk: seq<char>, token: seq<char>, n: nat,
                    p: nat, tail: seq<char>)
    requires Window(received, kept, token, n)
    requires IsFirst(kept + chunk, token, p)
    requires tail == (kept + chunk)[p..] && |tail| < |token| + n
    ensures Window(received + chunk, tail, token, n)
  {
    SearchWindow(received, kept, chunk, token, n, p);
    assert tail == (received + chunk)[|received| - |kept| + p..];
    assert tail[..|token|] == (kept + chunk)[p..p + |token|];
    assert OccursAt(tail, token, 0);
  }

  /** Not in the joined buffer, so the first occurrence in tail + chunk is the one in the chunk. */
  lemma FoundInChunk(kept: seq<char>, chunk: seq<char>, token: seq<char>, w: nat, q: nat)
    requires |kept| + Min(|chunk|, |token|) <= w <= |kept + chunk|
    requires !Occurs((kept + chunk)[..w], token)
    ensures IsFirst(chunk, token, q) ==> IsFirst(kept + chunk, token, |kept| + q)
    ensures !Occurs(chunk, token) ==> !Occurs(kept + chunk, token)
  {
    var all := kept + chunk;
    forall j | 0 <= j && OccursAt(all, token, j)
      ensures |kept| <= j && OccursAt(chunk, token, j - |kept|)
    {
      if j < |kept| {
        assert all == all[..w] + all[w..];
        OccursInHead(all[..w], all[w..], token, j);
      } else {
        OccursInTail(kept, chunk, token, j - |kept|);
      }
    }
    if IsFirst(chunk, token, q) {
      OccursInTail(kept, chunk, token, q);
    }
  }

  lemma FoundNowhere(received: seq<char>, kept: seq<char>, chunk: seq<char>, token: seq<char>, n: nat, tail: seq<char>)
    requires Window(received, kept, token, n)
    requires !Occurs(kept + chunk, token)
    requires |tail| == Min(|kept + chunk|, |token| + n) && tail == (kept + chunk)[|kept + chunk| - |tail|..]
    ensures Window(received + chunk, tail, token, n)
  {
    SearchWindow(received, kept, chunk, token, n, 0);
    var all := received + chunk;
    assert kept == (kept + chunk)[..|kept|];
    if Occurs(kept, token) {
      var i :| OccursAt(kept, token, i);
      OccursInHead(kept, chunk, token, i);
    }
    assert tail == all[|all| - |tail|..];
    if Occurs(tail, token) {
      assert all == all[..|all| - |tail|] + tail;
      var i :| OccursAt(tail, token, i);
      OccursInTail(all[..|all| - |tail|], tail, token, i);
    }
  }

  /** What is left when the response ends: the value, if the token was there at all. */
  lemma EndOfResponse(received: seq<char>, kept: seq<char>, token: seq<char>, n: nat)
    requires Window(received, kept, token, n)
    ensures Occurs(kept, token) <==> Occurs(received, token)
    ensures Occurs(kept, token) ==>
              OccursAt(kept, token, 0) && IsValueOf(received, token, n, DigitPrefix(kept[|token|..], n))
  {
    if Occurs(kept, token) {
      var f := |received| - |kept|;
      assert OccursAt(received, token, f);
      assert received[f + |token|..] == kept[|token|..];
      assert kept[..|token|] == received[f..f + |token|];
    }
  }

  lemma SettledIsValue(received: seq<char>, token: seq<char>, n: nat, digits: seq<char>)
    requires Settled(received, token, n, digits)
    ensures IsValueOf(received, token, n, digits) && Occurs(received, token)
  {
    var f :| IsFirst(received, token, f) && f + |token| + n <= |received|
          && digits == DigitPrefix(received[f + |token|..], n);
    assert OccursAt(received, token, f);
  }
}
