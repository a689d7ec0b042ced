/** memcpy and memmove, instruction by instruction, on one memory (sections 7.21.2.1 and 7.21.2.2 of
    ISO C99 say what they are for). */
module BlockCopy {
  import opened Common

  /** `m` is `m0` with `k` bytes from `src` put at `dest`. */
  predicate Copied(m0: seq<byte>, m: seq<byte>, dest: nat, src: nat, k: nat)
    requires dest + k <= |m0| && src + k <= |m0|
  {
    && |m| == |m0|
    && (forall a :: dest <= a < dest + k ==> m[a] == m0[a - dest + src])
    && (forall a :: 0 <= a < |m| && !(dest <= a < dest + k) ==> m[a] == m0[a])
  }

  /** A forward copy never reads what it has written. */
  predicate ForwardSafe(dest: nat, src: nat, n: nat) {
    dest <= src || src + n <= dest
  }

  lemma CopyOne(m0: seq<byte>, m: seq<byte>, dest: nat, src: nat, k: nat, n: nat)
    requires dest + n <= |m0| && src + n <= |m0| && k < n && Copied(m0, m, dest, src, k) && ForwardSafe(dest, src, n)
    ensures Copied(m0, m[dest + k := m[src + k]], dest, src, k + 1)
  {
  }

  lemma CopyOneDown(m0: seq<byte>, m: seq<byte>, dest: nat, src: nat, k: nat)
    requires 0 < dest && 0 < src && src < dest && dest + k <= |m0| && src + k <= |m0| && Copied(m0, m, dest, src, k)
    ensures Copied(m0, m[dest - 1 := m[src - 1]], dest - 1, src - 1, k + 1)
  {
  }

  /** `m'` is `m` after a dword move. */
  predicate DwordMoved(m: seq<byte>, m': seq<byte>, edi: nat, esi: nat)
    requires edi + 4 <= |m| && esi + 4 <= |m|
  {
    && |m'| == |m|
    && (forall a :: edi <= a < edi + 4 ==> m'[a] == m[a - edi + esi])
    && (forall a :: 0 <= a < |m| && !(edi <= a < edi + 4) ==> m'[a] == m[a])
  }

  lemma CopyFour(m0: seq<byte>, m: seq<byte>, m': seq<byte>, dest: nat, src: nat, k: nat, n: nat)
    requires dest + n <= |m0| && src + n <= |m0| && k + 4 <= n
    requires Copied(m0, m, dest, src, k) && ForwardSafe(dest, src, n)
    requires DwordMoved(m, m', dest + k, src + k)
    ensures Copied(m0, m', dest, src, k + 4)
  {
  }

  lemma WholeCopy(m0: seq<byte>, m: seq<byte>, dest: nat, src: nat, n: nat)
    requires dest + n <= |m0| && src + n <= |m0| && Copied(m0, m, dest, src, n)
    ensures m[dest..dest + n] == m0[src..src + n] && m[..dest] == m0[..dest] && m[dest + n..] == m0[dest + n..]
  {
  }

  class Memory {
    const mem: array<byte>
    var down: bool  // the direction flag of string instructions

    constructor (contents: seq<byte>)
      ensures fresh(mem) && mem[..] == contents && !down
    {
      mem := new byte[|contents|](i requires 0 <= i < |contents| => contents[i]);
      down := false;
    }

    method MoveByte(edi: nat, esi: nat)
      requires edi < mem.Length && esi < mem.Length
      modifies mem
      ensures mem[..] == old(mem[..])[edi := old(mem[..])[esi]]
    {
      mem[edi] := mem[esi];
    }

    /** movsl, upwards: four bytes are read before any is written. */
    method MoveDword(edi: nat, esi: nat)
      requires edi + 4 <= mem.Length && esi + 4 <= mem.Length
      modifies mem
      ensures DwordMoved(old(mem[..]), mem[..], edi, esi)
    {
      var b0, b1, b2, b3 := mem[esi], mem[esi + 1], mem[esi + 2], mem[esi + 3];
      mem[edi] := b0;
      mem[edi + 1] := b1;
      mem[edi + 2] := b2;
      mem[edi + 3] := b3;
    }

    /** The byte loops of memcpy, from `k` copied bytes on: to a dword boundary when `align`, else to `n`. */
    method CopyBytes(dest: nat, src: nat, k: nat, n: nat, align: bool, ghost m0: seq<byte>) returns (done: nat)
      requires |m0| == mem.Length && dest + n <= |m0| && src + n <= |m0| && k <= n && ForwardSafe(dest, src, n)
      requires Copied(m0, mem[..], dest, src, k)
      modifies mem
      ensures k <= done <= n && Copied(m0, mem[..], dest, src, done)
      ensures done < n ==> align && (dest + done) % 4 == 0
    {
      done := k;
      while done < n && !(align && (dest + done) % 4 == 0)
        invariant k <= done <= n && Copied(m0, mem[..], dest, src, done)
      {
        CopyOne(m0, mem[..], dest, src, done, n);
        MoveByte(dest + done, src + done);
        done := done + 1;
      }
    }

    /** One movsl, `k` bytes into the copy. */
    method CopyDword(dest: nat, src: nat, k: nat, n: nat, ghost m0: seq<byte>)
      requires |m0| == mem.Length && dest + n <= |m0| && src + n <= |m0| && k + 4 <= n && ForwardSafe(dest, src, n)
      requires Copied(m0, mem[..], dest, src, k)
      modifies mem
      ensures Copied(m0, mem[..], dest, src, k + 4)
    {
      ghost var m := mem[..];
      MoveDword(dest + k, src + k);
      CopyFour(m0, m, mem[..], dest, src, k, n);
    }

    /** rep movsl. */
    method CopyDwords(dest: nat, src: nat, k: nat, count: nat, n: nat, ghost m0: seq<byte>)
      requires |m0| == mem.Length && dest + n <= |m0| && src + n <= |m0|
      requires k + 4 * count <= n && ForwardSafe(dest, src, n)
      requires Copied(m0, mem[..], dest, src, k)
      modifies mem
      ensures Copied(m0, mem[..], dest, src, k + 4 * count)
    {
      var i := 0;
      while i < count
        invariant i <= count && Copied(m0, mem[..], dest, src, k + 4 * i)
      {
        CopyDword(dest, src, k + 4 * i, n, m0);
        i := i + 1;
      }
    }

    /** Bytes up to a dword boundary of the destination, then dwords, then the last bytes. Right for
        separate blocks, and for overlapping ones when the destination is the lower. */
    method MemCpy(dest: nat, src: nat, n: nat)
      requires dest + n <= mem.Length && src + n <= mem.Length && ForwardSafe(dest, src, n)
      modifies this, mem
      ensures mem[dest..dest + n] == old(mem[src..src + n])
      ensures mem[..dest] == old(mem[..dest]) && mem[dest + n..] == old(mem[dest + n..])
    {
      ghost var m0 := mem[..];
      var done := CopyBytes(dest, src, 0, n, true, m0);
      var ecx := n - done;
      if ecx != 0 {
        down := false;
        CopyDwords(dest, src, done, ecx / 4, n, m0);
        done := CopyBytes(dest, src, n - ecx % 4, n, false, m0);
      }
      WholeCopy(m0, mem[..], dest, src, n);
    }

    /** Downwards when the source lies below the destination; the direction flag is left that way. */
    method MemMove(dest: nat, src: nat, n: nat)
      requires dest + n <= mem.Length && src + n <= mem.Length
      modifies this, mem
      ensures mem[dest..dest + n] == old(mem[src..src + n])
      ensures mem[..dest] == old(mem[..dest]) && mem[dest + n..] == old(mem[dest + n..])
      ensures down == (src < dest)
    {
      ghost var m0 := mem[..];
      down := false;
      if src >= dest {
        var k := 0;
        while k < n
          invariant k <= n && Copied(m0, mem[..], dest, src, k) && !down
        {
          CopyOne(m0, mem[..], dest, src, k, n);
          MoveByte(dest + k, src + k);
          k := k + 1;
        }
      } else {
        down := true;
        var k := n;
        while k > 0
          invariant 0 <= k <= n && Copied(m0, mem[..], dest + k, src + k, n - k) && down
        {
          CopyOneDown(m0, mem[..], dest + k, src + k, n - k);
          MoveByte(dest + k - 1, src + k - 1);
          k := k - 1;
        }
      }
      WholeCopy(m0, mem[..], dest, src, n);
    }
  }
}
