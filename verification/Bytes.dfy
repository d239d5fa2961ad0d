/** Byte strings: fixed-width little-endian integers, 32-byte digests, and their lexicographic order. */
module Bytes {
  import opened Arithmetic

  type Byte = b: int | 0 <= b < 256

  type ByteSeq = seq<Byte>

  /** A SHA-256 digest, a Merkle node or an account address. */
  type Digest = d: ByteSeq | |d| == 32 witness seq(32, _ => 0)

  type Address = Digest

  /** The bytes of an ASCII literal. */
  function Ascii(text: string): (s: ByteSeq)
    requires forall i :: 0 <= i < |text| ==> text[i] as int < 128
    ensures |s| == |text|
    ensures forall i :: 0 <= i < |s| ==> s[i] == text[i] as int
  {
    seq(|text|, (i: nat) requires i < |text| => text[i] as Byte)
  }

  /** The pieces laid end to end. */
  function Flatten(pieces: seq<ByteSeq>): (s: ByteSeq)
  {
    if pieces == [] then [] else pieces[0] + Flatten(pieces[1..])
  }

  lemma AppendCancel(a: ByteSeq, b: ByteSeq, s: ByteSeq, t: ByteSeq)
    requires |a| == |b| && a + s == b + t
    ensures a == b && s == t
  {
    assert a == (a + s)[..|a|] && b == (b + t)[..|b|];
    assert s == (a + s)[|a|..] && t == (b + t)[|b|..];
  }

  lemma {:induction false} FlattenAppend(a: seq<ByteSeq>, b: seq<ByteSeq>)
    ensures Flatten(a + b) == Flatten(a) + Flatten(b)
  {
    if a == [] {
      assert a + b == b;
    } else {
      assert (a + b)[1..] == a[1..] + b;
      FlattenAppend(a[1..], b);
    }
  }

  lemma FlattenSnoc(pieces: seq<ByteSeq>, piece: ByteSeq)
    ensures Flatten(pieces + [piece]) == Flatten(pieces) + piece
  {
    FlattenAppend(pieces, [piece]);
    assert Flatten([piece]) == piece + Flatten([]);
  }

  lemma {:induction false} FlattenInjective(a: seq<ByteSeq>, b: seq<ByteSeq>)
    requires |a| == |b| && forall i :: 0 <= i < |a| ==> |a[i]| == |b[i]|
    requires Flatten(a) == Flatten(b)
    ensures a == b
  {
    if a != [] {
      AppendCancel(a[0], b[0], Flatten(a[1..]), Flatten(b[1..]));
      FlattenInjective(a[1..], b[1..]);
      assert a == [a[0]] + a[1..] && b == [b[0]] + b[1..];
    }
  }

  /** `s` with `value` in place of as many bytes from `offset` on. */
  function Overwrite(s: ByteSeq, offset: nat, value: ByteSeq): (r: ByteSeq)
    requires offset + |value| <= |s|
    ensures |r| == |s|
  {
    s[..offset] + value + s[offset + |value|..]
  }

  lemma OverwriteTwice(s: ByteSeq, offset: nat, a: ByteSeq, b: ByteSeq)
    requires offset + |a| + |b| <= |s|
    ensures Overwrite(Overwrite(s, offset, a), offset + |a|, b) == Overwrite(s, offset, a + b)
  {
  }

  /** Copies `value` into `result` from `offset` on and leaves the rest alone. */
  method CopyInto(result: array<Byte>, value: ByteSeq, offset: nat)
    requires offset + |value| <= result.Length
    modifies result
    ensures result[..] == Overwrite(old(result[..]), offset, value)
  {
    for k := 0 to |value|
      invariant result[..offset] == old(result[..offset])
      invariant result[offset..offset + k] == value[..k]
      invariant forall j :: offset + |value| <= j < result.Length ==> result[j] == old(result[j])
    {
      result[offset + k] := value[k];
    }
  }

  // ---- Little-endian integers ----

  function Pow256(width: nat): (p: nat)
    ensures p > 0
  {
    if width == 0 then 1 else 256 * Pow256(width - 1)
  }

  /** `n` in `width` little-endian bytes; higher bytes are dropped, as a narrowing store does. */
  function LittleEndian(n: nat, width: nat): (s: ByteSeq)
    ensures |s| == width
  {
    if width == 0 then [] else [n % 256] + LittleEndian(n / 256, width - 1)
  }

  function LittleEndianValue(s: ByteSeq): (n: nat)
  {
    if s == [] then 0 else s[0] + 256 * LittleEndianValue(s[1..])
  }

  /** Byte `k` counts the multiples of 256^k: the lowest byte comes first. */
  lemma {:induction false} LittleEndianAt(n: nat, width: nat, k: nat)
    requires k < width
    ensures LittleEndian(n, width)[k] == n / Pow256(k) % 256
  {
    if k == 0 {
      assert n / 1 == n;
    } else {
      LittleEndianAt(n / 256, width - 1, k - 1);
      DivideTwice(n, 256, Pow256(k - 1));
    }
  }

  lemma DivideTwice(n: nat, a: nat, b: nat)
    requires a > 0 && b > 0
    ensures a * b > 0 && n / a / b == n / (a * b)
  {
    MulAtLeast(a, b);
    DivBounds(n, a);
    DivBounds(n / a, b);
    var q := n / a / b;
    assert q * (a * b) == (q * b) * a;
    MulMonotone(q * b, n / a, a);
    MulMonotone(n / a + 1, (q + 1) * b, a);
    assert ((q + 1) * b) * a == q * (a * b) + a * b && (n / a + 1) * a == (n / a) * a + a;
    DivUnique(n, a * b, q);
  }

  lemma {:induction false} LittleEndianRoundTrip(n: nat, width: nat)
    requires n < Pow256(width)
    ensures LittleEndianValue(LittleEndian(n, width)) == n
  {
    if width > 0 {
      var tail := LittleEndian(n / 256, width - 1);
      assert LittleEndian(n, width)[1..] == tail;
      LittleEndianRoundTrip(n / 256, width - 1);
    }
  }

  lemma {:induction false} LittleEndianOfValue(s: ByteSeq)
    ensures LittleEndianValue(s) < Pow256(|s|)
    ensures LittleEndian(LittleEndianValue(s), |s|) == s
  {
    if s != [] {
      LittleEndianOfValue(s[1..]);
      var rest := LittleEndianValue(s[1..]);
      assert (s[0] + 256 * rest) / 256 == rest && (s[0] + 256 * rest) % 256 == s[0];
      assert s == [s[0]] + s[1..];
    }
  }

  lemma WidthBounds()
    ensures Pow256(1) == 0x100 && Pow256(2) == 0x1_0000 && Pow256(4) == 0x1_0000_0000
    ensures Pow256(8) == 0x1_0000_0000_0000_0000
  {
    assert Pow256(2) == 256 * Pow256(1);
    assert Pow256(3) == 256 * Pow256(2);
    assert Pow256(4) == 256 * Pow256(3);
    assert Pow256(5) == 256 * Pow256(4);
    assert Pow256(6) == 256 * Pow256(5);
    assert Pow256(7) == 256 * Pow256(6);
  }

  lemma LittleEndianInjective(a: nat, b: nat, width: nat)
    requires a < Pow256(width) && b < Pow256(width)
    requires LittleEndian(a, width) == LittleEndian(b, width)
    ensures a == b
  {
    LittleEndianRoundTrip(a, width);
    LittleEndianRoundTrip(b, width);
  }

  // ---- Lexicographic order ----

  predicate LexLe(a: ByteSeq, b: ByteSeq)
  {
    a == [] || (b != [] && (a[0] < b[0] || (a[0] == b[0] && LexLe(a[1..], b[1..]))))
  }

  /** The first byte in which two strings differ decides which is smaller. */
  lemma {:induction false} LexAtFirstDifference(a: ByteSeq, b: ByteSeq, k: nat)
    requires k < |a| && k < |b| && a[..k] == b[..k] && a[k] != b[k]
    ensures LexLe(a, b) <==> a[k] < b[k]
  {
    if k > 0 {
      assert a[0] == a[..k][0] && b[0] == b[..k][0];
      assert a[1..][..k - 1] == a[..k][1..] && b[1..][..k - 1] == b[..k][1..];
      LexAtFirstDifference(a[1..], b[1..], k - 1);
    }
  }

  lemma {:induction false} LexTotal(a: ByteSeq, b: ByteSeq)
    ensures LexLe(a, b) || LexLe(b, a)
  {
    if a != [] && b != [] {
      LexTotal(a[1..], b[1..]);
    }
  }

  lemma {:induction false} LexAntisymmetric(a: ByteSeq, b: ByteSeq)
    requires LexLe(a, b) && LexLe(b, a)
    ensures a == b
  {
    if a != [] && b != [] {
      LexAntisymmetric(a[1..], b[1..]);
      assert a == [a[0]] + a[1..] && b == [b[0]] + b[1..];
    }
  }

  lemma {:induction false} LexTransitive(a: ByteSeq, b: ByteSeq, c: ByteSeq)
    requires LexLe(a, b) && LexLe(b, c)
    ensures LexLe(a, c)
  {
    if a != [] && b[0] == a[0] && c[0] == a[0] {
      LexTransitive(a[1..], b[1..], c[1..]);
    }
  }

  // ---- Sorting digests ----

  ghost predicate IsSorted(s: seq<Digest>)
  {
    forall i, j :: 0 <= i < j < |s| ==> LexLe(s[i], s[j])
  }

  function Insert(x: Digest, s: seq<Digest>): (r: seq<Digest>)
    ensures multiset(r) == multiset(s) + multiset{x}
  {
    if s == [] then [x]
    else if LexLe(x, s[0]) then [x] + s
    else
      assert s == [s[0]] + s[1..];
      [s[0]] + Insert(x, s[1..])
  }

  /** The ascending arrangement of `s`: what the library sorts return (see `SortedUnique`). */
  function Sorted(s: seq<Digest>): (r: seq<Digest>)
    ensures multiset(r) == multiset(s)
    ensures |r| == |s|
  {
    if s == [] then []
    else
      assert s == [s[0]] + s[1..];
      var r := Insert(s[0], Sorted(s[1..]));
      assert |multiset(r)| == |r|;
      assert |multiset(s)| == |s|;
      r
  }

  lemma {:induction false} InsertSorted(x: Digest, s: seq<Digest>)
    requires IsSorted(s)
    ensures IsSorted(Insert(x, s))
  {
    if s == [] {
    } else if LexLe(x, s[0]) {
      forall j | 0 <= j < |s| ensures LexLe(x, s[j]) {
        if j > 0 { LexTransitive(x, s[0], s[j]); }
      }
    } else {
      var rest := Insert(x, s[1..]);
      InsertSorted(x, s[1..]);
      LexTotal(x, s[0]);
      forall j | 0 <= j < |rest| ensures LexLe(s[0], rest[j]) {
        assert rest[j] in multiset(s[1..]) + multiset{x};
        if rest[j] != x {
          assert rest[j] in s[1..];
        }
      }
    }
  }

  lemma {:induction false} SortedIsSorted(s: seq<Digest>)
    ensures IsSorted(Sorted(s))
  {
    if s != [] {
      SortedIsSorted(s[1..]);
      InsertSorted(s[0], Sorted(s[1..]));
    }
  }

  lemma TailMultiset(s: seq<Digest>)
    requires s != []
    ensures multiset(s[1..]) == multiset(s) - multiset{s[0]}
  {
    assert s == [s[0]] + s[1..];
  }

  lemma SameFirst(a: seq<Digest>, b: seq<Digest>)
    requires IsSorted(a) && IsSorted(b) && multiset(a) == multiset(b) && a != []
    ensures b != [] && a[0] == b[0]
  {
    assert a[0] in multiset(a);
    assert a[0] in multiset(b);
    assert b[0] in multiset(b);
    assert b[0] in multiset(a);
    LexTotal(a[0], a[0]);
    LexTotal(b[0], b[0]);
    LexAntisymmetric(a[0], b[0]);
  }

  /** Two ascending arrangements of the same digests are equal, whatever algorithm made them. */
  lemma {:induction false} SortedUnique(a: seq<Digest>, b: seq<Digest>)
    requires IsSorted(a) && IsSorted(b) && multiset(a) == multiset(b)
    ensures a == b
  {
    if a == [] {
      assert |multiset(b)| == |b|;
    } else {
      SameFirst(a, b);
      TailMultiset(a);
      TailMultiset(b);
      SortedUnique(a[1..], b[1..]);
      assert a == [a[0]] + a[1..] && b == [b[0]] + b[1..];
    }
  }

  lemma SortedPermutation(a: seq<Digest>, b: seq<Digest>)
    requires multiset(a) == multiset(b)
    ensures Sorted(a) == Sorted(b)
  {
    SortedIsSorted(a);
    SortedIsSorted(b);
    SortedUnique(Sorted(a), Sorted(b));
  }

  lemma SortedMembers(s: seq<Digest>)
    ensures forall x: Digest :: x in Sorted(s) <==> x in s
  {
    forall x: Digest ensures x in Sorted(s) <==> x in s {
      assert x in multiset(Sorted(s)) <==> x in multiset(s);
    }
  }
}
