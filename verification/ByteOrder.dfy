/** Words of bytes and their order. */
module ByteOrder {

  type Byte = x: int | 0 <= x < 256

  function Reverse(s: seq<Byte>): (r: seq<Byte>)
    ensures |r| == |s| && forall i | 0 <= i < |s| :: r[i] == s[|s| - 1 - i]
  {
    seq(|s|, i requires 0 <= i < |s| => s[|s| - 1 - i])
  }

  lemma ReverseTwice(s: seq<Byte>)
    ensures Reverse(Reverse(s)) == s
  {
  }

  /** The length of count words. */
  function Span(size: nat, count: nat): nat {
    if count == 0 then 0 else size + Span(size, count - 1)
  }

  lemma {:induction false} SpanIs(size: nat, count: nat)
    ensures Span(size, count) == size * count
  {
    if count > 0 { SpanIs(size, count - 1); }
  }

  /** Each of the count words of s with its bytes reversed. */
  function Swapped(s: seq<Byte>, size: nat, count: nat): (r: seq<Byte>)
    requires |s| == Span(size, count)
    ensures |r| == |s|
    decreases count
  {
    if count == 0 then []
    else
      var n := Span(size, count - 1);
      Swapped(s[..n], size, count - 1) + Reverse(s[n..])
  }

  /** Swapping twice changes nothing. */
  lemma {:induction false} SwappedTwice(s: seq<Byte>, size: nat, count: nat)
    requires |s| == Span(size, count)
    ensures Swapped(Swapped(s, size, count), size, count) == s
    decreases count
  {
    if count > 0 {
      var n := Span(size, count - 1);
      var t := Swapped(s, size, count);
      SwappedTwice(s[..n], size, count - 1);
      assert t[n..] == Reverse(s[n..]) && t[..n] == Swapped(s[..n], size, count - 1);
      ReverseTwice(s[n..]);
    }
  }

  lemma SliceOfPrefix(s: seq<Byte>, n: nat, p: nat, q: nat)
    requires p <= q <= n <= |s|
    ensures s[..n][p..q] == s[p..q]
  {
  }

  lemma Nested(h: seq<Byte>, a: nat, n: nat, p: nat, q: nat)
    requires a + n <= |h| && p <= q <= n
    ensures h[a..a+n][p..q] == h[a+p..a+q]
  {
    var r := h[a..a+n];
    var u, v := r[p..q], h[a+p..a+q];
    forall i | 0 <= i < |u| ensures u[i] == v[i] {
      assert u[i] == r[p+i] == h[a+(p+i)];
    }
    assert u == v;
  }

  lemma SwappedParts(s: seq<Byte>, size: nat, count: nat)
    requires |s| == Span(size, count) && count > 0
    ensures var n, t := Span(size, count - 1), Swapped(s, size, count);
            |s| == n + size && t[..n] == Swapped(s[..n], size, count - 1) && t[n..] == Reverse(s[n..])
  {
    hide Reverse;
  }

  lemma WholeSlice(s: seq<Byte>, n: nat, size: nat)
    requires |s| == n + size
    ensures s[n..n+size] == s[n..]
  {
  }

  /** Each word is reversed on its own. */
  lemma {:induction false} SwappedAt(s: seq<Byte>, size: nat, count: nat, k: nat)
    requires |s| == Span(size, count) && k < count
    ensures Span(size, k) + size <= |s|
    ensures var p := Span(size, k); Swapped(s, size, count)[p..p+size] == Reverse(s[p..p+size])
    decreases count
  {
    hide Reverse, Swapped, Span;
    var n := Span(size, count - 1);
    var p := Span(size, k);
    var t := Swapped(s, size, count);
    SwappedParts(s, size, count);
    if k < count - 1 {
      SwappedAt(s[..n], size, count - 1, k);
      SliceOfPrefix(t, n, p, p + size);
      SliceOfPrefix(s, n, p, p + size);
    } else {
      WholeSlice(t, n, size);
      WholeSlice(s, n, size);
    }
  }

  /** The bytes s with the word at position at reversed. */
  function WordSwapped(s: seq<Byte>, at: nat, size: nat): seq<Byte>
    requires at + size <= |s|
  {
    s[..at] + Reverse(s[at..at+size]) + s[at+size..]
  }

  /** Reverses the bytes of one word in place. */
  method SwapWord(data: array<Byte>, at: nat, size: nat)
    requires at + size <= data.Length
    modifies data
    ensures data[..] == WordSwapped(old(data[..]), at, size)
  {
    ghost var was := data[..];
    ghost var last := 2 * at + size - 1;
    var i := 0;
    while i < size / 2
      invariant i <= size / 2
      invariant forall k | at <= k < at + i || at + size - i <= k < at + size :: data[k] == was[last-k]
      invariant forall k | 0 <= k < at || at + i <= k < at + size - i || at + size <= k < data.Length ::
        data[k] == was[k]
    {
      data[at+i], data[at+size-i-1] := data[at+size-i-1], data[at+i];
      i := i + 1;
    }
    WordReversed(was, data[..], at, size);
  }

  lemma WordReversed(was: seq<Byte>, now: seq<Byte>, at: nat, size: nat)
    requires |was| == |now| && at + size <= |was|
    requires forall k | at <= k < at + size :: now[k] == was[2*at+size-1-k]
    requires forall k | 0 <= k < at || at + size <= k < |was| :: now[k] == was[k]
    ensures now == WordSwapped(was, at, size)
  {
  }

  /** Converts the byte order of count words in place. */
  method SwapWords(data: array<Byte>, at: nat, size: nat, count: nat)
    requires at + Span(size, count) <= data.Length
    modifies data
    ensures var end := at + Span(size, count);
            data[..] == old(data[..at]) + Swapped(old(data[at..end]), size, count) + old(data[end..])
  {
    hide SwappedTo, Swapped, WordSwapped, Reverse, Span;
    ghost var was := data[..];
    SwappedStart(was, at, size);
    var p := at;
    var word := 0;
    while word < count
      invariant word <= count && p == at + Span(size, word) && at + Span(size, count) <= data.Length
      invariant SwappedTo(was, data[..], at, size, word)
    {
      SpanGrows(size, word + 1, count);
      SwappedStep(was, data[..], at, size, word);
      SwapWord(data, p, size);
      p := p + size;
      word := word + 1;
    }
    SwappedEnd(was, data[..], at, size, count);
  }

  lemma SwappedStart(was: seq<Byte>, at: nat, size: nat)
    requires at <= |was|
    ensures Span(size, 0) == 0 && SwappedTo(was, was, at, size, 0)
  {
    SwappedNone(size);
  }

  lemma SwappedEnd(was: seq<Byte>, now: seq<Byte>, at: nat, size: nat, count: nat)
    requires SwappedTo(was, now, at, size, count)
    ensures var end := at + Span(size, count);
            end <= |was| && now == was[..at] + Swapped(was[at..end], size, count) + was[end..]
  {
    hide Swapped, Reverse, Span;
  }

  /** The first words behind position at have been swapped, nothing else. */
  ghost predicate SwappedTo(was: seq<Byte>, now: seq<Byte>, at: nat, size: nat, word: nat) {
    var p := at + Span(size, word);
    p <= |was| && now == was[..at] + Swapped(was[at..p], size, word) + was[p..]
  }

  lemma SwappedNone(size: nat)
    ensures Swapped([], size, 0) == []
  {
  }

  lemma {:induction false} SpanGrows(size: nat, a: nat, b: nat)
    requires a <= b
    ensures Span(size, a) <= Span(size, b)
  {
    if a < b { SpanGrows(size, a, b - 1); }
  }

  lemma WordBetween(a: seq<Byte>, x: seq<Byte>, t: seq<Byte>, r: seq<Byte>)
    ensures WordSwapped(a + x + (t + r), |a| + |x|, |t|) == a + (x + Reverse(t)) + r
  {
    hide Reverse;
    var s, p := a + x + (t + r), |a| + |x|;
    assert s[..p] == a + x && s[p..p+|t|] == t && s[p+|t|..] == r;
  }

  lemma SwappedSnoc(s: seq<Byte>, t: seq<Byte>, size: nat, count: nat)
    requires |s| == Span(size, count) && |t| == size
    ensures |s + t| == Span(size, count + 1)
    ensures Swapped(s + t, size, count + 1) == Swapped(s, size, count) + Reverse(t)
  {
    hide Reverse;
    assert (s + t)[..|s|] == s && (s + t)[|s|..] == t;
  }

  lemma SwappedStep(was: seq<Byte>, now: seq<Byte>, at: nat, size: nat, word: nat)
    requires at + Span(size, word + 1) <= |was| && SwappedTo(was, now, at, size, word)
    ensures var p := at + Span(size, word);
            Span(size, word + 1) == Span(size, word) + size && p + size <= |now| &&
            SwappedTo(was, WordSwapped(now, p, size), at, size, word + 1)
  {
    SpanNext(size, word);
    hide Reverse, Swapped, Span, WordSwapped;
    var p := at + Span(size, word);
    var t := was[p..p+size];
    WordBetween(was[..at], Swapped(was[at..p], size, word), t, was[p+size..]);
    SwappedSnoc(was[at..p], t, size, word);
    SplitAround(was, at, p, size);
  }

  lemma SpanNext(size: nat, word: nat)
    ensures Span(size, word + 1) == Span(size, word) + size
  {
  }

  lemma SplitAround(s: seq<Byte>, at: nat, p: nat, size: nat)
    requires at <= p && p + size <= |s|
    ensures s[p..] == s[p..p+size] + s[p+size..] && s[at..p+size] == s[at..p] + s[p..p+size]
  {
  }
}
