/** Directory entries and path names: strncmp and strncpy of kernel/string.c as directories
    use them, struct dirent, and skipelem's reading of a path. */
module Names {
  import opened Bytes

  const DIRSIZ := 14
  const DIRENT := 16
  const SLASH: byte := 47

  /** The k-th byte of a C string or of a name array, NUL behind its end. */
  function At(s: seq<byte>, k: nat): byte {
    if k < |s| then s[k] else 0
  }

  /** The characters before the first NUL, n at most. */
  function Chars(s: seq<byte>, n: nat): (r: seq<byte>)
    ensures |r| <= n && forall k :: 0 <= k < |r| ==> r[k] == At(s, k) && r[k] != 0
    ensures |r| == n || At(s, |r|) == 0
  {
    if n == 0 || At(s, 0) == 0 then [] else [s[0]] + Chars(s[1..], n - 1)
  }

  /** A name as directories compare it. */
  function Key(s: seq<byte>): seq<byte> {
    Chars(s, DIRSIZ)
  }

  /** Characters before position k count, and a NUL there ends the name. */
  lemma {:induction false} CharsPrefix(p: seq<byte>, n: nat, k: nat)
    requires k <= n && forall j :: 0 <= j < k ==> At(p, j) != 0
    ensures |Chars(p, n)| >= k && (k < n ==> (|Chars(p, n)| > k <==> At(p, k) != 0))
  {
    if k > 0 {
      assert At(p, 0) != 0;
      forall j | 0 <= j < k - 1 ensures At(p[1..], j) != 0 {
        assert At(p, j + 1) != 0;
      }
      CharsPrefix(p[1..], n - 1, k - 1);
    }
  }

  lemma {:induction false} SameChars(p: seq<byte>, q: seq<byte>, n: nat, k: nat)
    requires k <= n && forall j :: 0 <= j < k ==> At(p, j) == At(q, j) && At(p, j) != 0
    ensures k == n || (At(p, k) == 0 && At(q, k) == 0) ==> Chars(p, n) == Chars(q, n)
    ensures k < n && At(p, k) != At(q, k) ==> Chars(p, n) != Chars(q, n)
  {
    CharsPrefix(p, n, k);
    CharsPrefix(q, n, k);
  }

  /** strncmp: zero exactly for strings with the same first n characters. */
  method Strncmp(p: seq<byte>, q: seq<byte>, n: nat) returns (r: int)
    ensures r == 0 <==> Chars(p, n) == Chars(q, n)
  {
    var k := 0;
    while k < n && At(p, k) != 0 && At(p, k) == At(q, k)
      invariant 0 <= k <= n
      invariant forall j :: 0 <= j < k ==> At(p, j) == At(q, j) && At(p, j) != 0
    {
      k := k + 1;
    }
    SameChars(p, q, n, k);
    if k == n { return 0; }
    return At(p, k) as int - At(q, k) as int;
  }

  /** strncpy: the same characters, padded with NULs to n bytes. */
  method Strncpy(t: seq<byte>, n: nat) returns (s: seq<byte>)
    ensures |s| == n && Chars(s, n) == Chars(t, n)
    ensures forall k :: |Chars(t, n)| <= k < n ==> s[k] == 0
  {
    s := [];
    var stop := false;
    while |s| < n && !stop
      invariant |s| <= n
      invariant !stop ==> forall j :: 0 <= j < |s| ==> s[j] == At(t, j) && s[j] != 0
      invariant stop ==> |s| > 0 && s[|s| - 1] == 0 == At(t, |s| - 1)
      invariant stop ==> forall j :: 0 <= j < |s| - 1 ==> s[j] == At(t, j) && s[j] != 0
      decreases n - |s|
    {
      s := s + [At(t, |s|)];
      stop := s[|s| - 1] == 0;
    }
    ghost var k := if stop then |s| - 1 else |s|;
    while |s| < n
      invariant k <= |s| <= n && (k < n ==> At(t, k) == 0)
      invariant forall j :: 0 <= j < k ==> s[j] == At(t, j) && s[j] != 0
      invariant forall j :: k <= j < |s| ==> s[j] == 0
    {
      s := s + [0];
    }
    SameChars(s, t, n, k);
    CharsLength(t, n, k);
  }

  lemma {:induction false} CharsLength(t: seq<byte>, n: nat, k: nat)
    requires k <= n && (forall j :: 0 <= j < k ==> At(t, j) != 0) && (k < n ==> At(t, k) == 0)
    ensures |Chars(t, n)| == k
  {
    CharsPrefix(t, n, k);
  }
}
