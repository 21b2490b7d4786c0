/** A file as a sequence of bytes, and as one number with the first byte lowest. */
module FileBytes {
  import opened Wrappers
  import opened Bits
  import opened BitFields

  function Zeros(n: nat): (z: seq<byte>)
    ensures |z| == n
  {
    seq<byte>(n, _ => 0)
  }

  /** The file has zeros where it has no bytes. */
  function At(f: seq<byte>, i: nat): byte { if i < |f| then f[i] else 0 }

  function Read(f: seq<byte>, pos: nat, n: nat): (r: seq<byte>)
    ensures |r| == n
  {
    seq<byte>(n, i requires i >= 0 => At(f, pos + i))
  }

  /** Writing behind the end leaves a hole of zeros. */
  function Write(f: seq<byte>, pos: nat, d: seq<byte>): (r: seq<byte>) {
    if d == [] then f else
    seq<byte>(if |f| >= pos + |d| then |f| else pos + |d|,
              i requires i >= 0 => if pos <= i < pos + |d| then d[i - pos] else At(f, i))
  }

  // ----- As a number -----

  function Num(f: seq<byte>): nat {
    if f == [] then 0 else f[0] + 256 * Num(f[1..])
  }

  function Bytes(x: nat, n: nat): (r: seq<byte>)
    ensures |r| == n
  {
    if n == 0 then [] else [x % 256] + Bytes(x / 256, n - 1)
  }

  lemma ByteWeight(k: nat)
    ensures Pow2(8 * (k + 1)) == 256 * Pow2(8 * k)
  {
    Pow2Sum(8, 8 * k);
    assert Pow2(4) == 16;
    assert Pow2(8) == 256;
  }

  lemma Scale(p: nat, x: nat)
    ensures 256 * (p * x) == (256 * p) * x
  {
  }

  lemma {:induction false} NumAppend(a: seq<byte>, b: seq<byte>)
    ensures Num(a + b) == Num(a) + Pow2(8 * |a|) * Num(b)
  {
    if a == [] {
      assert a + b == b;
    } else {
      assert (a + b)[1..] == a[1..] + b;
      NumAppend(a[1..], b);
      ByteWeight(|a| - 1);
      Scale(Pow2(8 * (|a| - 1)), Num(b));
    }
  }

  lemma {:induction false} NumBelow(f: seq<byte>)
    ensures Num(f) < Pow2(8 * |f|)
  {
    if f != [] {
      NumBelow(f[1..]);
      ByteWeight(|f| - 1);
    }
  }

  lemma {:induction false} NumZeros(n: nat)
    ensures Num(Zeros(n)) == 0
  {
    if n > 0 {
      assert Zeros(n)[1..] == Zeros(n - 1);
      NumZeros(n - 1);
    }
  }

  lemma {:induction false} NumBytes(x: nat, n: nat)
    requires x < Pow2(8 * n)
    ensures Num(Bytes(x, n)) == x
    decreases n
  {
    if n > 0 {
      ByteWeight(n - 1);
      NumBytes(x / 256, n - 1);
      assert Bytes(x, n)[1..] == Bytes(x / 256, n - 1);
    }
  }

  /** A file around n bytes at pos. */
  lemma {:induction false} NumSplit(a: seq<byte>, d: seq<byte>, t: seq<byte>)
    ensures Num(a + d + t) == Num(a) + Pow2(8 * |a|) * (Num(d) + Pow2(8 * |d|) * Num(t))
  {
    assert a + d + t == a + (d + t);
    NumAppend(a, d + t);
    NumAppend(d, t);
  }

  // ----- Fields of a file -----

  function Tail(f: seq<byte>, end: nat): seq<byte> { if |f| > end then f[end..] else [] }

  /** A file around n bytes at pos, before and after they are written. */
  lemma {:induction false} NumAround(f: seq<byte>, pos: nat, d: seq<byte>) returns (before: nat, after: nat)
    requires d != []
    ensures before < Pow2(8 * pos)
    ensures Num(f) == before + Pow2(8 * pos) * (Num(Read(f, pos, |d|)) + Pow2(8 * |d|) * after)
    ensures Num(Write(f, pos, d)) == before + Pow2(8 * pos) * (Num(d) + Pow2(8 * |d|) * after)
  {
    before, after := Num(Read(f, 0, pos)), Num(Tail(f, pos + |d|));
    NumBelow(Read(f, 0, pos));
    NumAroundRead(f, pos, |d|);
    NumAroundWrite(f, pos, d);
  }

  lemma {:induction false} NumAroundRead(f: seq<byte>, pos: nat, n: nat)
    ensures Num(f) == Num(Read(f, 0, pos)) + Pow2(8 * pos) * (Num(Read(f, pos, n)) + Pow2(8 * n) * Num(Tail(f, pos + n)))
  {
    var a, r, t := Read(f, 0, pos), Read(f, pos, n), Tail(f, pos + n);
    AroundRead(f, pos, n);
    NumPadded(f, a + r + t);
    NumSplit(a, r, t);
  }

  lemma {:induction false} NumAroundWrite(f: seq<byte>, pos: nat, d: seq<byte>)
    requires d != []
    ensures Num(Write(f, pos, d))
         == Num(Read(f, 0, pos)) + Pow2(8 * pos) * (Num(d) + Pow2(8 * |d|) * Num(Tail(f, pos + |d|)))
  {
    AroundWrite(f, pos, d);
    NumSplit(Read(f, 0, pos), d, Tail(f, pos + |d|));
  }

  lemma AroundRead(f: seq<byte>, pos: nat, n: nat)
    ensures var longer := Read(f, 0, pos) + Read(f, pos, n) + Tail(f, pos + n);
            |f| <= |longer| && longer == Read(f, 0, |longer|)
  {
    var longer := Read(f, 0, pos) + Read(f, pos, n) + Tail(f, pos + n);
    forall i | 0 <= i < |longer| ensures longer[i] == Read(f, 0, |longer|)[i] {
      assert Read(f, 0, |longer|)[i] == At(f, 0 + i);
      if i < pos {
        assert Read(f, 0, pos)[i] == At(f, 0 + i);
      } else if i < pos + n {
        assert Read(f, pos, n)[i - pos] == At(f, pos + (i - pos));
      }
    }
  }

  lemma AroundWrite(f: seq<byte>, pos: nat, d: seq<byte>)
    requires d != []
    ensures Write(f, pos, d) == Read(f, 0, pos) + d + Tail(f, pos + |d|)
  {
    var end, t := pos + |d|, Tail(f, pos + |d|);
    var parts, written := Read(f, 0, pos) + d + t, Write(f, pos, d);
    assert |parts| == |written|;
    forall i | 0 <= i < |parts| ensures parts[i] == written[i] {
      if i < pos {
        assert parts[i] == Read(f, 0, pos)[i] == At(f, 0 + i);
      } else if i < end {
        assert parts[i] == d[i - pos];
      } else {
        assert parts[i] == t[i - end] == At(f, i);
      }
    }
    assert parts == written;
  }

  lemma NumPadded(f: seq<byte>, longer: seq<byte>)
    requires |f| <= |longer| && longer == Read(f, 0, |longer|)
    ensures Num(longer) == Num(f)
  {
    var n: nat := |longer| - |f|;
    forall i | 0 <= i < |longer| ensures longer[i] == (f + Zeros(n))[i] {
      assert Read(f, 0, |longer|)[i] == At(f, 0 + i);
    }
    assert longer == f + Zeros(n);
    NumAppend(f, Zeros(n));
    NumZeros(n);
  }

  /** A field that lies within n bytes at pos can be read from those bytes alone. */
  lemma FieldRead(f: seq<byte>, pos: nat, n: nat, s: nat, w: nat)
    requires 0 < n && s + w <= 8 * n
    ensures Field(Num(Read(f, pos, n)), s, w) == Field(Num(f), 8 * pos + s, w)
  {
    var d := Read(f, pos, n);
    var before, after := NumAround(f, pos, d);
    var upper: nat := Num(d) + Pow2(8 * n) * after;
    FieldAbove(Num(f), before, upper, 8 * pos, s, 8 * pos + s, w);
    FieldBelow(upper, Num(d), after, 8 * n, s, w);
  }

  /** What the file becomes when a field is replaced within n bytes at pos. */
  function Patched(f: seq<byte>, pos: nat, n: nat, s: nat, w: nat, field: nat): seq<byte> {
    var data := Put(Num(Read(f, pos, n)), s, w, field);
    Write(f, pos, Bytes(if data >= 0 then data else 0, n))
  }

  /** The file before and after, composed around the field. */
  lemma {:induction false} PatchComposes(f: seq<byte>, pos: nat, n: nat, s: nat, w: nat, field: nat) returns (low: nat, high: nat)
    requires 0 < n && s + w <= 8 * n && field < Pow2(w)
    ensures low < Pow2(8 * pos + s) && Field(Num(f), 8 * pos + s, w) < Pow2(w)
    ensures Num(f) == Compose(low, 8 * pos + s, Field(Num(f), 8 * pos + s, w), w, high)
    ensures Num(Patched(f, pos, n, s, w, field)) == Compose(low, 8 * pos + s, field, w, high)
  {
    var d := Read(f, pos, n);
    NumBelow(d);
    FieldRead(f, pos, n, s, w);
    var data, l, h := PatchedData(f, pos, n, s, w, field);
    var before, after := NumAround(f, pos, Bytes(data, n));
    low, high := BothInWindow(before, 8 * pos, Num(d), data, l, s, Field(Num(d), s, w), field, w, h, 8 * n, after, 8 * pos + s,
                              Num(f), Num(Patched(f, pos, n, s, w, field)));
  }

  lemma {:induction false} PatchedData(f: seq<byte>, pos: nat, n: nat, s: nat, w: nat, field: nat)
      returns (data: nat, low: nat, high: nat)
    requires 0 < n && s + w <= 8 * n && field < Pow2(w)
    ensures Num(Bytes(data, n)) == data && Patched(f, pos, n, s, w, field) == Write(f, pos, Bytes(data, n))
    ensures var x := Num(Read(f, pos, n));
            && low < Pow2(s) && Field(x, s, w) < Pow2(w)
            && x == Compose(low, s, Field(x, s, w), w, high) && data == Compose(low, s, field, w, high)
  {
    NumBelow(Read(f, pos, n));
    low, high := PutComposes(Num(Read(f, pos, n)), s, w, field, 8 * n);
    data := Put(Num(Read(f, pos, n)), s, w, field);
    NumBytes(data, n);
  }

  /** The field is replaced, and no bit outside it changes. */
  lemma PatchChangesField(f: seq<byte>, pos: nat, n: nat, s: nat, w: nat, field: nat, q: nat, v: nat)
    requires 0 < n && s + w <= 8 * n && field < Pow2(w)
    ensures Field(Num(Patched(f, pos, n, s, w, field)), 8 * pos + s, w) == field
    ensures q + v <= 8 * pos + s || 8 * pos + s + w <= q ==>
              Field(Num(Patched(f, pos, n, s, w, field)), q, v) == Field(Num(f), q, v)
  {
    var low, high := PatchComposes(f, pos, n, s, w, field);
    ComposedField(Num(Patched(f, pos, n, s, w, field)), low, 8 * pos + s, field, w, high);
    if q + v <= 8 * pos + s || 8 * pos + s + w <= q {
      OtherFields(Num(f), Num(Patched(f, pos, n, s, w, field)), low, 8 * pos + s,
                  Field(Num(f), 8 * pos + s, w), field, w, high, q, v);
    }
  }

  // ----- Access in pieces -----

  lemma ReadSplit(f: seq<byte>, pos: nat, k: nat, n: nat)
    requires k <= n
    ensures Read(f, pos, n) == Read(f, pos, k) + Read(f, pos + k, n - k)
  {
    var l, r := Read(f, pos, n), Read(f, pos, k) + Read(f, pos + k, n - k);
    forall i | 0 <= i < n ensures l[i] == r[i] {
      assert i >= k ==> r[i] == Read(f, pos + k, n - k)[i - k];
    }
    assert l == r;
  }

  /** Writing in two pieces is writing at once. */
  lemma {:induction false} WriteSplit(f: seq<byte>, pos: nat, d: seq<byte>, k: nat)
    requires k < |d|
    ensures Write(Write(f, pos, d[..k]), pos + k, d[k..]) == Write(f, pos, d)
  {
    var g := Write(f, pos, d[..k]);
    var l, r := Write(g, pos + k, d[k..]), Write(f, pos, d);
    forall i | 0 <= i < |r| ensures l[i] == r[i] {
      assert At(g, i) == if pos <= i < pos + k then d[i - pos] else At(f, i);
      assert pos + k <= i < pos + |d| ==> l[i] == d[k..][i - pos - k];
    }
    assert l == r;
  }

  lemma ReadBehind(f: seq<byte>, pos: nat, n: nat)
    requires pos >= |f|
    ensures Read(f, pos, n) == Zeros(n)
  {
    forall i | 0 <= i < n ensures Read(f, pos, n)[i] == Zeros(n)[i] {
      assert Read(f, pos, n)[i] == At(f, pos + i);
    }
    assert Read(f, pos, n) == Zeros(n);
  }

  lemma ReadWithin(f: seq<byte>, pos: nat, n: nat)
    requires pos + n <= |f|
    ensures Read(f, pos, n) == f[pos..pos + n]
  {
    forall i | 0 <= i < n ensures Read(f, pos, n)[i] == f[pos..pos + n][i] {
      assert Read(f, pos, n)[i] == At(f, pos + i);
    }
    assert Read(f, pos, n) == f[pos..pos + n];
  }

  class ConfigFile {
    var bytes: seq<byte>
    var pos: nat

    method Seek(offset: nat)
      modifies this`pos
      ensures pos == offset
    {
      pos := offset;
    }

    /** Some bytes, as many as the system likes; none at the end of the file. */
    method ReadChunk(n: nat) returns (chunk: seq<byte>)
      requires n > 0
      modifies this`pos
      ensures |chunk| <= n && pos == old(pos) + |chunk|
      ensures chunk == [] <==> old(pos) >= |bytes|
      ensures chunk != [] ==> pos <= |bytes| && chunk == bytes[old(pos)..pos]
    {
      if pos >= |bytes| {
        return [];
      }
      var k: nat :| 1 <= k <= n && pos + k <= |bytes|;
      chunk := bytes[pos..pos + k];
      pos := pos + k;
    }

    /** Writes some of the bytes, as many as the system likes. */
    method WriteChunk(d: seq<byte>) returns (k: nat)
      requires d != []
      modifies this
      ensures 1 <= k <= |d| && pos == old(pos) + k
      ensures bytes == Write(old(bytes), old(pos), d[..k])
    {
      k :| 1 <= k <= |d|;
      bytes := Write(bytes, pos, d[..k]);
      pos := pos + k;
    }

    /** All n bytes, with zeros for what lies behind the end. */
    method ReadRepeated(n: nat) returns (data: seq<byte>)
      modifies this`pos
      ensures data == Read(bytes, old(pos), n)
    {
      data := [];
      var left := n;
      assert Read(bytes, pos, 0) == [];
      while left > 0
        invariant 0 <= left <= n && pos == old(pos) + (n - left)
        invariant data == Read(bytes, old(pos), n - left)
      {
        ghost var at := pos;
        var chunk := ReadChunk(left);
        if chunk == [] {
          ReadSplit(bytes, old(pos), n - left, n);
          ReadBehind(bytes, at, left);
          return data + Zeros(left);
        }
        ReadSplit(bytes, old(pos), n - left, n - left + |chunk|);
        ReadWithin(bytes, at, |chunk|);
        data := data + chunk;
        left := left - |chunk|;
      }
    }

    method WriteRepeated(d: seq<byte>)
      modifies this
      ensures bytes == Write(old(bytes), old(pos), d)
    {
      var left := d;
      while left != []
        invariant Write(bytes, pos, left) == Write(old(bytes), old(pos), d)
        decreases |left|
      {
        ghost var before, at := bytes, pos;
        var k := WriteChunk(left);
        if k < |left| {
          WriteSplit(before, at, left, k);
        } else {
          assert left[..k] == left;
        }
        left := left[k..];
      }
    }
  }
}
