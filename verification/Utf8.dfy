/** Bytes and the structural UTF-8 rules the pane stream relies on: how long the code
    point announced by a lead byte is, where code points begin and end in a stream, and
    which trailing bytes of a chunk belong to a code point still in flight. */
module Utf8 {

  type byte = x: int | 0 <= x < 256

  /** `b & 0xC0 == 0x80`. */
  predicate IsContinuation(b: byte) {
    0x80 <= b < 0xC0
  }

  /** Bytes in the code point that `lead` opens (`lead & 0xE0 == 0xC0` and so on);
      0 for a byte that opens none. */
  function Need(lead: byte): nat {
    if lead < 0x80 then 1
    else if 0xC0 <= lead < 0xE0 then 2
    else if 0xE0 <= lead < 0xF0 then 3
    else if 0xF0 <= lead < 0xF8 then 4
    else 0
  }

  /** `s` is a prefix of some stream of structurally well-formed code points: the last
      one may still be incomplete. */
  ghost predicate WellFormed(s: seq<byte>) {
    && (s != [] ==> !IsContinuation(s[0]))
    && forall i {:trigger OpensAt(s, i)} :: 0 <= i < |s| && !IsContinuation(s[i]) ==> OpensAt(s, i)
  }

  /** The byte at `i` opens a code point and `s` continues it as its lead announces. */
  ghost predicate OpensAt(s: seq<byte>, i: nat)
    requires i < |s|
  {
    && Need(s[i]) > 0
    && (forall j :: i < j < i + Need(s[i]) && j < |s| ==> IsContinuation(s[j]))
    && (i + Need(s[i]) < |s| ==> !IsContinuation(s[i + Need(s[i])]))
  }

  /** No code point of `s` straddles position `i`. */
  ghost predicate Boundary(s: seq<byte>, i: nat) {
    && i <= |s|
    && forall j :: 0 <= j < i && !IsContinuation(s[j]) ==> j + Need(s[j]) <= i
  }

  lemma WellFormedPrefix(s: seq<byte>, t: seq<byte>)
    requires WellFormed(s + t)
    ensures WellFormed(s)
  {
    forall i | 0 <= i < |s| && !IsContinuation(s[i])
      ensures OpensAt(s, i)
    {
      assert (s + t)[i] == s[i];
      assert OpensAt(s + t, i);
      forall j | i < j < i + Need(s[i]) && j < |s|
        ensures IsContinuation(s[j])
      {
        assert (s + t)[j] == s[j];
      }
    }
    assert s != [] ==> (s + t)[0] == s[0];
  }

  lemma BoundaryGrows(s: seq<byte>, t: seq<byte>, i: nat)
    requires Boundary(s, i)
    ensures Boundary(s + t, i)
  {
    forall j | 0 <= j < i && !IsContinuation((s + t)[j])
      ensures j + Need((s + t)[j]) <= i
    {
      assert (s + t)[j] == s[j];
    }
  }

  /** The lead byte of the code point covering position `i - 1`: at most three back. */
  lemma LeadBefore(s: seq<byte>, i: nat) returns (lead: nat)
    requires WellFormed(s) && 0 < i <= |s|
    ensures lead < i <= lead + 4 && !IsContinuation(s[lead]) && OpensAt(s, lead)
    ensures i <= lead + Need(s[lead])
    ensures forall j :: lead < j < i ==> IsContinuation(s[j])
  {
    lead := i - 1;
    while IsContinuation(s[lead])
      invariant lead < i
      invariant forall j :: lead < j < i ==> IsContinuation(s[j])
      decreases lead
    {
      lead := lead - 1;
    }
    assert OpensAt(s, lead);
  }

  /** In a well-formed stream a position is a boundary exactly when no continuation byte
      sits there and, at the very end, the last code point is complete. */
  lemma BoundaryInside(s: seq<byte>, i: nat)
    requires WellFormed(s) && i < |s|
    ensures Boundary(s, i) <==> !IsContinuation(s[i])
  {
    if !IsContinuation(s[i]) {
      forall j | 0 <= j < i && !IsContinuation(s[j])
        ensures j + Need(s[j]) <= i
      {
        assert OpensAt(s, j);
      }
    } else {
      var lead := LeadBefore(s, i + 1);
    }
  }

  /** Length of the trailing code point still in flight in `b`: walk back over at most
      three continuation bytes, then compare the lead's announced length with what is there. */
  function IncompleteSuffixLen(b: seq<byte>): (n: nat)
    ensures n <= 3 && n <= |b|
  {
    var cont := TrailingContinuations(b, 0);
    var i := |b| - cont;
    if i == 0 then 0
    else
      var need := Need(b[i - 1]);
      var have := cont + 1;
      if 1 < need && have < need then have else 0
  }

  /** How many of at most three trailing bytes of `b` are continuation bytes, `cont` of
      them already counted. */
  function TrailingContinuations(b: seq<byte>, cont: nat): (n: nat)
    requires cont <= 3 && cont <= |b|
    requires forall j :: |b| - cont <= j < |b| ==> IsContinuation(b[j])
    ensures cont <= n <= 3 && n <= |b|
    ensures forall j :: |b| - n <= j < |b| ==> IsContinuation(b[j])
    ensures n < 3 && n < |b| ==> !IsContinuation(b[|b| - n - 1])
    decreases 3 - cont
  {
    if cont < |b| && cont < 3 && IsContinuation(b[|b| - cont - 1])
    then TrailingContinuations(b, cont + 1)
    else cont
  }

  /** `incomplete_utf8_suffix_len` with its backward walk as a loop. */
  method IncompleteUtf8SuffixLen(b: seq<byte>) returns (n: nat)
    ensures n == IncompleteSuffixLen(b)
  {
    var i := |b|;
    var cont := 0;
    while i > 0 && cont < 3 && IsContinuation(b[i - 1])
      invariant 0 <= cont <= 3 && 0 <= i == |b| - cont
      invariant forall j :: i <= j < |b| ==> IsContinuation(b[j])
      invariant TrailingContinuations(b, cont) == TrailingContinuations(b, 0)
    {
      i, cont := i - 1, cont + 1;
    }
    if i == 0 {
      return 0;
    }
    var need := Need(b[i - 1]);
    if need <= 1 {
      return 0;
    }
    var have := |b| - (i - 1);
    return if have < need then have else 0;
  }

  /** Holding back the incomplete suffix of a slice that starts at a boundary ends the
      emitted part at a boundary, and no later boundary was available. */
  lemma HoldBackEndsAtBoundary(s: seq<byte>, p: nat, e: nat)
    requires WellFormed(s) && p <= e <= |s| && Boundary(s, p)
    ensures Boundary(s, e - IncompleteSuffixLen(s[p..e]))
    ensures forall i :: e - IncompleteSuffixLen(s[p..e]) < i <= e ==> !Boundary(s, i)
  {
    var b := s[p..e];
    if p < e {
      var lead := LeadBefore(s, e);
      var cont := TrailingContinuations(b, 0);
      BoundaryInside(s, p);
      assert p <= lead;
      assert forall k :: 0 <= k < |b| ==> b[k] == s[p + k];
      assert b[lead - p] == s[lead];
      assert cont == e - 1 - lead;
      if cont + 1 < Need(s[lead]) {
        BoundaryInside(s, lead);
        forall i | lead < i <= e
          ensures !Boundary(s, i)
        {
          assert lead + Need(s[lead]) > i;
        }
      } else if e < |s| {
        BoundaryInside(s, e);
        assert e == lead + Need(s[lead]);
      } else {
        forall j | 0 <= j < e && !IsContinuation(s[j])
          ensures j + Need(s[j]) <= e
        {
          assert OpensAt(s, j);
          assert j <= lead;
        }
      }
    }
  }
}
