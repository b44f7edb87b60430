/** Zero-terminated strings in character arrays. */
module CStrings {

  /** The array holds the string t and its terminator. */
  ghost predicate Holds(buf: array<char>, t: string)
    reads buf
  {
    |t| < buf.Length && buf[..|t|] == t && buf[|t|] == '\0'
  }

  predicate NoNul(t: string) {
    forall k | 0 <= k < |t| :: t[k] != '\0'
  }

  /** Writes t and a terminator behind the first n characters. */
  method Write(buf: array<char>, n: nat, t: string)
    requires n + |t| < buf.Length
    modifies buf
    ensures Holds(buf, old(buf[..n]) + t)
  {
    var i := 0;
    while i < |t|
      invariant 0 <= i <= |t|
      invariant buf[..n] == old(buf[..n]) && buf[n..n+i] == t[..i]
    {
      buf[n+i] := t[i];
      i := i + 1;
    }
    buf[n+|t|] := '\0';
    assert buf[..n+|t|] == buf[..n] + buf[n..n+|t|];
  }

  /** Moves the end of the string, from index q on, down to index p. */
  method CopyDown(buf: array<char>, p: nat, q: nat, ghost t: string)
    requires p <= q <= |t| && Holds(buf, t) && NoNul(t)
    modifies buf
    ensures Holds(buf, t[..p] + t[q..])
  {
    hide Holds, NoNul;
    ghost var was := buf[..];
    HeldChars(buf, t);
    var i := 0;
    while buf[q+i] != '\0'
      invariant q + i <= |t|
      invariant forall k | 0 <= k < p :: buf[k] == was[k]
      invariant forall k | p <= k < p + i :: buf[k] == was[k+(q-p)]
      invariant forall k | q + i <= k <= |t| :: buf[k] == was[k]
      decreases |t| - i
    {
      buf[p+i] := buf[q+i];
      i := i + 1;
    }
    buf[p+i] := '\0';
    Moved(was, buf, p, q, t);
  }

  lemma HeldChars(buf: array<char>, t: string)
    requires Holds(buf, t) && NoNul(t)
    ensures |t| < buf.Length && buf[|t|] == '\0' && forall k | 0 <= k < |t| :: buf[k] != '\0' && buf[k] == t[k]
  {
    assert forall k | 0 <= k < |t| :: buf[k] == buf[..|t|][k];
  }

  lemma Moved(was: seq<char>, buf: array<char>, p: nat, q: nat, t: string)
    requires p <= q <= |t| < |was| == buf.Length && forall k | 0 <= k < |t| :: was[k] == t[k]
    requires forall k | 0 <= k < p :: buf[k] == was[k]
    requires forall k | p <= k < p + |t| - q :: buf[k] == was[k+(q-p)]
    requires buf[p+|t|-q] == '\0'
    ensures Holds(buf, t[..p] + t[q..])
  {
  }

  method Strlen(buf: array<char>, ghost t: string) returns (n: nat)
    requires Holds(buf, t) && NoNul(t)
    ensures n == |t|
  {
    n := 0;
    while buf[n] != '\0'
      invariant n <= |t|
      decreases |t| - n
    {
      n := n + 1;
    }
  }
}
