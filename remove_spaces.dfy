/**
 * remove_spaces of test/test_main.c: deletes every ' ' from the string a
 * buffer holds, in place, keeping every other character in order.
 *
 * Strip is the specification (the string with its spaces filtered out);
 * RemoveSpaces is the two-cursor loop over the buffer, proved to leave
 * exactly SpacesRemoved(old buffer) behind.
 */
module SpaceRemoval {
  import opened CStrings

  const Space: char := ' '

  /** `s` with every space deleted. */
  function Strip(s: string): (r: string)
    ensures |r| <= |s|
  {
    if s == [] then [] else (if s[0] == Space then [] else [s[0]]) + Strip(s[1..])
  }

  /** A character is kept exactly when it occurs in `s` and is not a space. */
  lemma {:induction false} StripMembers(s: string)
    ensures forall c :: c in Strip(s) <==> c in s && c != Space
  {
    if s != [] {
      assert forall c :: c in s <==> c == s[0] || c in s[1..];
      StripMembers(s[1..]);
    }
  }

  /** One more character read: it is appended to the result unless it is a space. */
  lemma StripStep(s: string, r: nat)
    requires r < |s|
    ensures Strip(s[..r + 1]) == Strip(s[..r]) + if s[r] == Space then [] else [s[r]]
  {
    assert s[..r + 1] == s[..r] + [s[r]];
    StripAppend(s[..r], [s[r]]);
    StripSingle(s[r]);
  }

  /** Stripping a concatenation strips each part: the order of what is kept is the order in `s`. */
  lemma {:induction false} StripAppend(a: string, b: string)
    ensures Strip(a + b) == Strip(a) + Strip(b)
  {
    if a != [] {
      assert (a + b)[1..] == a[1..] + b;
      StripAppend(a[1..], b);
    } else {
      assert a + b == b;
    }
  }

  /** A single character is dropped exactly when it is a space. */
  lemma StripSingle(c: char)
    ensures Strip([c]) == if c == Space then [] else [c]
  {
    assert [c][1..] == [];
  }

  /** A string without spaces is left as it is. */
  lemma {:induction false} StripSpaceFree(s: string)
    requires Space !in s
    ensures Strip(s) == s
  {
    if s != [] {
      assert s[0] in s;
      assert forall c :: c in s[1..] ==> c in s;
      StripSpaceFree(s[1..]);
    }
  }

  /** Stripping twice is stripping once. */
  lemma StripIdempotent(s: string)
    ensures Strip(Strip(s)) == Strip(s)
  {
    StripMembers(s);
    StripSpaceFree(Strip(s));
  }

  /** Only spaces go: every other character (tab, newline, ...) keeps its number of occurrences. */
  lemma {:induction false} StripMultiset(s: string)
    ensures multiset(Strip(s)) == multiset(s)[Space := 0]
  {
    if s != [] {
      assert s == [s[0]] + s[1..];
      StripMultiset(s[1..]);
    }
  }

  /** The new length is the old length less the number of spaces. */
  lemma {:induction false} StripLength(s: string)
    ensures |Strip(s)| == |s| - multiset(s)[Space]
  {
    if s != [] {
      assert s == [s[0]] + s[1..];
      StripLength(s[1..]);
    }
  }

  /**
   * The whole buffer after remove_spaces: the stripped string and its
   * terminator, then the bytes that were there before.
   */
  function SpacesRemoved(s: string): (r: string)
    requires Nul in s
  {
    Compacted(Strip(CStr(s)), s)
  }

  /** `t` and a terminator written over the start of `s`; the rest of `s` stays. */
  function Compacted(t: string, s: string): (r: string)
    requires |t| < |s|
  {
    t + [Nul] + s[|t| + 1..]
  }

  /**
   * After remove_spaces the buffer holds the stripped string, and nothing
   * at or past the original terminator has changed.
   */
  lemma SpacesRemovedShape(s: string)
    requires Nul in s
    ensures |SpacesRemoved(s)| == |s| && Nul in SpacesRemoved(s)
    ensures CStr(SpacesRemoved(s)) == Strip(CStr(s))
    ensures Space !in CStr(SpacesRemoved(s))
    ensures forall k :: Strlen(s) <= k < |s| ==> SpacesRemoved(s)[k] == s[k]
  {
    var t := Strip(CStr(s));
    assert NoNul(t) && Space !in t by {
      StripMembers(CStr(s));
    }
    StrlenOfTerminated(t, s[|t| + 1..]);
    forall k | Strlen(s) <= k < |s|
      ensures SpacesRemoved(s)[k] == s[k]
    {
      SpacesRemovedTail(s, k);
    }
  }

  /** One byte at or past the old terminator: remove_spaces left it as it was. */
  lemma SpacesRemovedTail(s: string, k: nat)
    requires Nul in s && Strlen(s) <= k < |s|
    ensures SpacesRemoved(s)[k] == s[k]
  {
    var t := Strip(CStr(s));
    assert |t| <= Strlen(s);
    CompactedTail(t, s, k);
  }

  /** Past the terminator written at `|t|`, the bytes of `s` are kept. */
  lemma CompactedTail(t: string, s: string, k: nat)
    requires |t| <= k < |s|
    requires k == |t| ==> s[k] == Nul
    ensures Compacted(t, s)[k] == s[k]
  {
  }

  /**
   * A buffer that starts with the stripped string and a terminator and keeps
   * the old bytes after them is the buffer remove_spaces leaves.
   */
  lemma SpacesRemovedFromParts(s: string, a: string, w: nat)
    requires Nul in s && |a| == |s|
    requires w == |Strip(CStr(s))| + 1 && a[..w] == Strip(CStr(s)) + [Nul]
    requires forall k :: w <= k < |a| ==> a[k] == s[k]
    ensures a == SpacesRemoved(s)
  {
    assert a == a[..w] + a[w..];
    assert a[w..] == s[w..];
  }

  /** remove_spaces applied to its own output changes nothing. */
  lemma SpacesRemovedIdempotent(s: string)
    requires Nul in s
    ensures Nul in SpacesRemoved(s)
    ensures SpacesRemoved(SpacesRemoved(s)) == SpacesRemoved(s)
  {
    var t := Strip(CStr(s));
    var once := SpacesRemoved(s);
    SpacesRemovedShape(s);
    StripIdempotent(CStr(s));
    assert Strip(CStr(once)) + [Nul] == once[..|t| + 1];
    assert once == once[..|t| + 1] + once[|t| + 1..];
  }

  /**
   * remove_spaces: a read cursor skips spaces, a write cursor that never
   * overtakes it copies each character read, and the copy stops after the
   * terminator.
   */
  method RemoveSpaces(a: array<char>)
    requires Nul in a[..]
    modifies a
    ensures a[..] == SpacesRemoved(old(a[..]))
  {
    ghost var s := a[..];
    ghost var n := Strlen(s);
    var w, r := 0, 0;
    while true
      invariant w <= r <= n
      invariant a[..w] == Strip(s[..r])
      invariant forall k :: w <= k < a.Length ==> a[k] == s[k]
      decreases n - r
    {
      while a[r] == Space
        invariant w <= r <= n
        invariant a[..w] == Strip(s[..r])
        invariant forall k :: w <= k < a.Length ==> a[k] == s[k]
        decreases n - r
      {
        StripStep(s, r);
        r := r + 1;
      }
      var c := a[r];
      assert c == s[r];
      a[w] := c;
      assert a[..w + 1] == a[..w] + [c];
      if c == Nul {
        assert r == n && s[..r] == CStr(s);
        SpacesRemovedFromParts(s, a[..], w + 1);
        break;
      }
      StripStep(s, r);
      w, r := w + 1, r + 1;
    }
  }
}
