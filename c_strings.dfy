/**
 * NUL-terminated character buffers, as the capture code of test/test_main.c
 * uses them: the length of the string a buffer holds (strlen), copying one
 * such string into another buffer at an offset (strcpy), and the write that
 * a bounded formatter (vsnprintf) makes into a fixed-size buffer.
 */
module CStrings {

  const Nul: char := '\0'

  /** A string with no terminator inside it. */
  predicate NoNul(s: string) {
    Nul !in s
  }

  /** Index of the first NUL: the length of the C string the buffer holds. */
  function Strlen(s: string): (n: nat)
    requires Nul in s
    ensures n < |s| && s[n] == Nul
    ensures forall k :: 0 <= k < n ==> s[k] != Nul
  {
    if s[0] == Nul then 0 else Strlen(s[1..]) + 1
  }

  /** The characters before the first NUL. */
  function CStr(s: string): (t: string)
    requires Nul in s
    ensures |t| < |s| && NoNul(t) && t + [Nul] == s[..|t| + 1]
  {
    s[..Strlen(s)]
  }

  /** A string written in front of a terminator is what the buffer holds. */
  lemma {:induction false} StrlenOfTerminated(t: string, rest: string)
    requires NoNul(t)
    ensures Nul in t + [Nul] + rest
    ensures Strlen(t + [Nul] + rest) == |t| && CStr(t + [Nul] + rest) == t
  {
    var s := t + [Nul] + rest;
    assert s[|t|] == Nul;
    if t != [] {
      assert s[1..] == t[1..] + [Nul] + rest;
      StrlenOfTerminated(t[1..], rest);
    }
  }

  /** `buf` with `t` written over it starting at index `at`. */
  function Overwrite(buf: string, at: nat, t: string): (r: string)
    requires at + |t| <= |buf|
    ensures |r| == |buf|
    ensures forall k :: 0 <= k < |t| ==> r[at + k] == t[k]
    ensures forall k :: 0 <= k < |buf| && !(at <= k < at + |t|) ==> r[k] == buf[k]
  {
    buf[..at] + t + buf[at + |t|..]
  }

  /** A buffer that agrees with `t` from `at` on and with `buf` elsewhere is `t` written over `buf`. */
  lemma OverwriteFromPointwise(buf: string, at: nat, t: string, r: string)
    requires at + |t| <= |buf| == |r|
    requires forall k :: 0 <= k < |t| ==> r[at + k] == t[k]
    requires forall k :: 0 <= k < |r| && !(at <= k < at + |t|) ==> r[k] == buf[k]
    ensures r == Overwrite(buf, at, t)
  {
    var o := Overwrite(buf, at, t);
    forall k | 0 <= k < |r|
      ensures r[k] == o[k]
    {
      if at <= k < at + |t| {
        assert r[at + (k - at)] == t[k - at];
      }
    }
  }

  /** The string `t` in a buffer of `size` bytes whose unused bytes are all 0. */
  function ZeroPad(t: string, size: nat): (r: string)
    requires |t| < size
    ensures |r| == size && r[..|t|] == t
    ensures forall k :: |t| <= k < size ==> r[k] == Nul
  {
    t + seq(size - |t|, _ => Nul)
  }

  /** A zero-padded buffer holds exactly its text as a C string. */
  lemma ZeroPadText(t: string, size: nat)
    requires NoNul(t) && |t| < size
    ensures Nul in ZeroPad(t, size)
    ensures Strlen(ZeroPad(t, size)) == |t| && CStr(ZeroPad(t, size)) == t
  {
    var r := ZeroPad(t, size);
    assert r == t + [Nul] + r[|t| + 1..];
    StrlenOfTerminated(t, r[|t| + 1..]);
  }

  /**
   * Copying `more` and its terminator over the terminator of a zero-padded
   * buffer gives the zero-padded concatenation: the bytes past the new
   * terminator stay 0.
   */
  lemma ZeroPadAppend(t: string, more: string, size: nat)
    requires |t| + |more| < size
    ensures Overwrite(ZeroPad(t, size), |t|, more + [Nul]) == ZeroPad(t + more, size)
  {
    var a := Overwrite(ZeroPad(t, size), |t|, more + [Nul]);
    var b := ZeroPad(t + more, size);
    forall k | 0 <= k < size
      ensures a[k] == b[k]
    {
      if k < |t| {
        assert b[k] == (t + more)[k] == t[k];
      } else if k < |t| + |more| {
        assert a[k] == (more + [Nul])[k - |t|];
        assert b[k] == (t + more)[k];
      } else if k > |t| + |more| {
        assert a[k] == ZeroPad(t, size)[k];
      }
    }
  }

  /** What C99 vsnprintf into a buffer of `size` bytes keeps of the formatted text. */
  function Truncated(text: string, size: nat): (r: string)
    requires size > 0
    ensures |r| < size && r <= text
    ensures |text| < size ==> r == text
    ensures |text| >= size ==> |r| == size - 1
  {
    if |text| < size then text else text[..size - 1]
  }

  /** strlen: scans the buffer for its terminator. */
  method FindTerminator(a: array<char>) returns (n: nat)
    requires Nul in a[..]
    ensures n == Strlen(a[..])
  {
    ghost var len := Strlen(a[..]);
    n := 0;
    while a[n] != Nul
      invariant n <= len
      decreases len - n
    {
      n := n + 1;
    }
  }

  /**
   * strcpy(dst + at, src): copies the string `src` holds and its terminator
   * to `dst` from index `at` on; nothing else in `dst` changes.
   */
  method StrCpy(dst: array<char>, at: nat, src: array<char>)
    requires dst != src
    requires Nul in src[..] && at + Strlen(src[..]) < dst.Length
    modifies dst
    ensures dst[..] == Overwrite(old(dst[..]), at, CStr(src[..]) + [Nul])
  {
    ghost var len := Strlen(src[..]);
    var i := 0;
    while src[i] != Nul
      invariant i <= len
      invariant forall k :: 0 <= k < i ==> dst[at + k] == src[k]
      invariant forall k :: 0 <= k < dst.Length && !(at <= k < at + i) ==> dst[k] == old(dst[k])
      decreases len - i
    {
      dst[at + i] := src[i];
      i := i + 1;
    }
    dst[at + i] := Nul;
    OverwriteFromPointwise(old(dst[..]), at, CStr(src[..]) + [Nul], dst[..]);
  }

  /**
   * C99 vsnprintf(buf, buf.Length, ...) given the text the format produces:
   * writes as much of it as fits before a terminator and returns the length
   * of the whole text.
   */
  method WriteFormatted(buf: array<char>, text: string) returns (count: nat)
    requires buf.Length > 0 && NoNul(text)
    modifies buf
    ensures count == |text|
    ensures buf[..] == Overwrite(old(buf[..]), 0, Truncated(text, buf.Length) + [Nul])
  {
    var kept := Truncated(text, buf.Length);
    forall k | 0 <= k < |kept| {
      buf[k] := kept[k];
    }
    buf[|kept|] := Nul;
    count := |text|;
    assert buf[..] == Overwrite(old(buf[..]), 0, kept + [Nul]);
  }
}
