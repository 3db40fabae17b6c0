/** `strcat` over a flat byte memory.

    C's two `char *` arguments are offsets into one memory, so that the
    `restrict` qualifiers (the regions do not overlap) and the returned
    pointer (the first argument itself) can be stated directly. */
module StrCat {
  import opened Prelude

  /** Some byte at or after `p` is the terminator. */
  predicate Terminated(mem: seq<Byte>, p: nat)
  {
    exists i :: p <= i < |mem| && mem[i] == 0
  }

  /** Length of the NUL-terminated string starting at `p`: the distance to
      the first terminator. */
  function StrLen(mem: seq<Byte>, p: nat): (n: nat)
    requires Terminated(mem, p)
    ensures p + n < |mem| && mem[p + n] == 0
    ensures forall i :: p <= i < p + n ==> mem[i] != 0
    decreases |mem| - p
  {
    if mem[p] == 0 then 0
    else
      assert Terminated(mem, p + 1) by {
        var i :| p <= i < |mem| && mem[i] == 0;
        assert i != p;
      }
      StrLen(mem, p + 1) + 1
  }

  /** What the restrict-qualified signature and the unchecked writes rely on:
      both strings are terminated, the destination region `[s1, s1 + cap1)`
      fits in memory and can hold the concatenation with its terminator, and
      the source string (with its terminator) lies outside that region. */
  predicate CanConcatenate(mem: seq<Byte>, s1: nat, s2: nat, cap1: nat)
  {
    && Terminated(mem, s1)
    && Terminated(mem, s2)
    && s1 + cap1 <= |mem|
    && StrLen(mem, s1) + StrLen(mem, s2) + 1 <= cap1
    && (s2 + StrLen(mem, s2) < s1 || s1 + cap1 <= s2)
  }

  /** Appends the string at `s2` to the string at `s1`: the first loop finds
      the terminator of `s1`, the second copies `s2` byte by byte up to and
      including its terminator; the result pointer is `s1`. */
  method Strcat(mem: seq<Byte>, s1: nat, s2: nat, cap1: nat) returns (out: seq<Byte>, ret: nat)
    requires CanConcatenate(mem, s1, s2, cap1)
    ensures ret == s1
    ensures |out| == |mem|
    ensures forall j :: s1 + StrLen(mem, s1) <= j <= s1 + StrLen(mem, s1) + StrLen(mem, s2) ==>
      out[j] == mem[s2 + (j - (s1 + StrLen(mem, s1)))]
    ensures forall i :: 0 <= i < |mem| && !(s1 + StrLen(mem, s1) <= i <= s1 + StrLen(mem, s1) + StrLen(mem, s2)) ==>
      out[i] == mem[i]
    ensures Terminated(out, s1) && StrLen(out, s1) == StrLen(mem, s1) + StrLen(mem, s2)
  {
    var s := FindEnd(mem, s1);
    out := CopyString(mem, s, s2);
    ConcatLen(mem, out, s1, s2);
    ret := s1;
  }

  /** The first loop: walks from `s1` to its terminator. */
  method FindEnd(mem: seq<Byte>, s1: nat) returns (s: nat)
    requires Terminated(mem, s1)
    ensures s == s1 + StrLen(mem, s1)
  {
    ghost var len1 := StrLen(mem, s1);
    s := s1;
    while mem[s] != 0
      invariant s1 <= s <= s1 + len1
      decreases s1 + len1 - s
    {
      s := s + 1;
    }
  }

  /** The second loop: copies the string at `s2`, terminator included, to
      `s` onwards, one byte at a time, reading each byte before it could be
      overwritten. */
  method CopyString(mem: seq<Byte>, s: nat, s2: nat) returns (out: seq<Byte>)
    requires Terminated(mem, s2)
    requires s + StrLen(mem, s2) < |mem|
    requires s2 + StrLen(mem, s2) < s || s + StrLen(mem, s2) < s2
    ensures |out| == |mem|
    ensures forall j :: s <= j <= s + StrLen(mem, s2) ==> out[j] == mem[s2 + (j - s)]
    ensures forall i :: 0 <= i < |mem| && !(s <= i <= s + StrLen(mem, s2)) ==> out[i] == mem[i]
  {
    ghost var len2 := StrLen(mem, s2);
    out := mem;
    var d, t := s, s2;
    var done := false;
    while !done
      invariant d - s == t - s2
      invariant s2 <= t <= s2 + len2 + 1
      invariant done <==> t == s2 + len2 + 1
      invariant |out| == |mem|
      invariant forall j :: s <= j < d ==> out[j] == mem[s2 + (j - s)]
      invariant forall i :: 0 <= i < |mem| && !(s <= i < d) ==> out[i] == mem[i]
      decreases s2 + len2 + 1 - t
    {
      out := out[d := out[t]];
      d := d + 1;
      var c := out[t];
      t := t + 1;
      done := c == 0;
    }
  }

  /** The string at `s1` in `out` runs over the first string and then the
      copied second one: its length is the sum. */
  lemma {:induction false} ConcatLen(mem: seq<Byte>, out: seq<Byte>, s1: nat, s2: nat)
    requires Terminated(mem, s1) && Terminated(mem, s2) && |out| == |mem|
    requires s1 + StrLen(mem, s1) + StrLen(mem, s2) < |mem|
    requires forall j :: s1 + StrLen(mem, s1) <= j <= s1 + StrLen(mem, s1) + StrLen(mem, s2) ==>
      out[j] == mem[s2 + (j - (s1 + StrLen(mem, s1)))]
    requires forall i :: s1 <= i < s1 + StrLen(mem, s1) ==> out[i] == mem[i]
    ensures Terminated(out, s1) && StrLen(out, s1) == StrLen(mem, s1) + StrLen(mem, s2)
  {
    var len1, len2 := StrLen(mem, s1), StrLen(mem, s2);
    forall i | s1 <= i < s1 + len1 + len2
      ensures out[i] != 0
    {
      if i >= s1 + len1 {
        assert out[i] == mem[s2 + (i - (s1 + len1))];
      } else {
        assert out[i] == mem[i];
      }
    }
    assert out[s1 + len1 + len2] == mem[s2 + len2];
    StrLenIs(out, s1, len1 + len2);
  }

  /** `StrLen` is the distance to the first terminator, whatever way that
      terminator was found. */
  lemma {:induction false} StrLenIs(mem: seq<Byte>, p: nat, n: nat)
    requires p + n < |mem| && mem[p + n] == 0
    requires forall i :: p <= i < p + n ==> mem[i] != 0
    ensures Terminated(mem, p) && StrLen(mem, p) == n
    decreases n
  {
    assert p <= p + n < |mem| && mem[p + n] == 0;
    if n > 0 {
      StrLenIs(mem, p + 1, n - 1);
    }
  }
}
