/** Bytes, ASCII literals and the byte-slice prefix test used by both request handlers. */
module Bytes {

  /** An unsigned 8-bit value, Rust's `u8`. */
  newtype byte = b: int | 0 <= b < 256

  /** True when every character of `s` is 7-bit ASCII. */
  predicate IsAscii(s: string) {
    forall i :: 0 <= i < |s| ==> s[i] as int < 128
  }

  /** The bytes of an ASCII string, as a Rust `b"..."` literal or `str::as_bytes` gives them. */
  function Ascii(s: string): (r: seq<byte>)
    requires IsAscii(s)
    ensures |r| == |s|
    ensures forall i :: 0 <= i < |s| ==> r[i] as int == s[i] as int
  {
    seq(|s|, i requires 0 <= i < |s| => s[i] as int as byte)
  }

  /** `<[u8]>::starts_with`: `prefix` is an initial segment of `s`. */
  predicate StartsWith(s: seq<byte>, prefix: seq<byte>) {
    |prefix| <= |s| && s[..|prefix|] == prefix
  }

  /** The first `n` bytes of `s`, or all of `s` when it is shorter. */
  function Take(s: seq<byte>, n: nat): (r: seq<byte>)
    ensures |r| == if |s| < n then |s| else n
    ensures StartsWith(s, r)
  {
    if |s| < n then s else s[..n]
  }

  /** Whether `s` starts with `prefix` is decided by the first `n >= |prefix|` bytes of `s`. */
  lemma StartsWithTake(s: seq<byte>, prefix: seq<byte>, n: nat)
    requires |prefix| <= n
    ensures StartsWith(s, prefix) <==> StartsWith(Take(s, n), prefix)
  {
    if |prefix| <= |s| && n <= |s| {
      assert s[..n][..|prefix|] == s[..|prefix|];
    }
  }

  /** Two sequences that agree on their first `n` bytes agree on every prefix test of length at most `n`. */
  lemma StartsWithAgree(a: seq<byte>, b: seq<byte>, prefix: seq<byte>, n: nat)
    requires |prefix| <= n
    requires Take(a, n) == Take(b, n)
    ensures StartsWith(a, prefix) <==> StartsWith(b, prefix)
  {
    StartsWithTake(a, prefix, n);
    StartsWithTake(b, prefix, n);
  }

  /** Two literals that differ at an index below both their lengths are never prefixes of one sequence. */
  lemma StartsWithBothDiffer(s: seq<byte>, p: seq<byte>, q: seq<byte>, k: nat)
    requires k < |p| && k < |q| && p[k] != q[k]
    ensures StartsWith(s, p) ==> !StartsWith(s, q)
  {
    if StartsWith(s, p) {
      assert s[..|p|][k] == s[k];
    }
  }

  /** True when no byte of `s` equals `b`. */
  predicate Excludes(s: seq<byte>, b: byte) {
    forall i :: 0 <= i < |s| ==> s[i] != b
  }

  /** The index of the first `b` in `s`, or `|s|` when there is none. */
  function IndexOf(s: seq<byte>, b: byte): (k: nat)
    ensures k <= |s|
    ensures Excludes(s[..k], b)
    ensures k < |s| ==> s[k] == b
  {
    if |s| == 0 || s[0] == b then 0 else 1 + IndexOf(s[1..], b)
  }

  /** In `a + t`, where `a` has no `b` and `t` starts with one, the first `b` is at `|a|`. */
  lemma {:induction false} IndexOfAfter(a: seq<byte>, t: seq<byte>, b: byte)
    requires Excludes(a, b) && |t| > 0 && t[0] == b
    ensures IndexOf(a + t, b) == |a|
  {
    if |a| > 0 {
      assert (a + t)[1..] == a[1..] + t;
      IndexOfAfter(a[1..], t, b);
    }
  }
}
