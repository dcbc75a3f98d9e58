/**
  * The offer rewrite of the calling side.
  *
  * Before an offer is set as the local description, every occurrence of the
  * DTLS setup-role attribute `a=setup:passive` is replaced by `a=setup:actpass`
  * (the `setup` attribute of RFC 4145 section 4, whose use for DTLS-SRTP is
  * fixed by RFC 5763 section 5). The rewrite is Foundation's
  * `replacingOccurrences(of:with:)`: a left-to-right scan that replaces
  * non-overlapping occurrences and leaves the text unchanged when the target
  * is empty.
  */
module Sdp {

  const PassiveSetup: string := "a=setup:passive"
  const ActpassSetup: string := "a=setup:actpass"

  /** `pat` occurs in `s` starting at index `i`. */
  predicate OccursAt(s: string, pat: string, i: nat)
  {
    i + |pat| <= |s| && s[i..i + |pat|] == pat
  }

  /** `pat` occurs somewhere in `s`. */
  predicate Contains(s: string, pat: string)
  {
    exists i: nat | i <= |s| :: OccursAt(s, pat, i)
  }

  /** Left-to-right replacement of the non-overlapping occurrences of `target`. */
  function ReplaceOccurrences(s: string, target: string, replacement: string): (r: string)
    ensures |target| == |replacement| ==> |r| == |s|
    ensures |s| < |target| ==> r == s
    decreases |s|
  {
    if |target| == 0 || |s| < |target| then s
    else if s[..|target|] == target then
      replacement + ReplaceOccurrences(s[|target|..], target, replacement)
    else
      [s[0]] + ReplaceOccurrences(s[1..], target, replacement)
  }

  /** The rewrite applied to a freshly created offer. */
  function ForceActpass(sdp: string): (r: string)
    ensures |r| == |sdp|
  {
    ReplaceOccurrences(sdp, PassiveSetup, ActpassSetup)
  }

  /** Occurrences shift with the text they sit in. */
  lemma OccursInSuffix(a: string, b: string, pat: string, i: nat)
    requires |a| <= i
    ensures OccursAt(a + b, pat, i) <==> OccursAt(b, pat, i - |a|)
  {
    if i + |pat| <= |a + b| {
      assert (a + b)[i..i + |pat|] == b[i - |a|..i - |a| + |pat|];
    }
  }

  /**
    * When `target` does not start anywhere before index `k`, the first `k`
    * characters are copied unchanged and the scan resumes at `k`.
    */
  lemma {:induction false} UnchangedPrefix(t: string, target: string, replacement: string, k: nat)
    requires |target| > 0 && k <= |t|
    requires forall i: nat :: i < k ==> !OccursAt(t, target, i)
    ensures ReplaceOccurrences(t, target, replacement)
         == t[..k] + ReplaceOccurrences(t[k..], target, replacement)
    decreases k
  {
    if k == 0 {
      assert t[..0] == [] && t[0..] == t;
    } else if |t| < |target| {
      assert t[..k] + t[k..] == t;
    } else {
      assert t[..|target|] != target by { assert !OccursAt(t, target, 0); }
      NoOccurrenceInTail(t, target, k);
      UnchangedPrefix(t[1..], target, replacement, k - 1);
      FirstCopied(t, target, replacement);
      assert t[1..][k - 1..] == t[k..];
      PrefixRegrouped(t, k, ReplaceOccurrences(t[k..], target, replacement));
    }
  }

  /** One step of the scan: a first character that starts no occurrence is copied. */
  lemma FirstCopied(t: string, target: string, replacement: string)
    requires 0 < |target| <= |t| && t[..|target|] != target
    ensures ReplaceOccurrences(t, target, replacement)
         == [t[0]] + ReplaceOccurrences(t[1..], target, replacement)
  {
  }

  lemma PrefixRegrouped(t: string, k: nat, tail: string)
    requires 1 <= k <= |t|
    ensures [t[0]] + (t[1..][..k - 1] + tail) == t[..k] + tail
  {
    assert t[..k] == [t[0]] + t[1..][..k - 1];
  }

  /** Dropping the first character shifts every non-occurrence one place left. */
  lemma NoOccurrenceInTail(t: string, target: string, k: nat)
    requires 1 <= k <= |t|
    requires forall i: nat :: i < k ==> !OccursAt(t, target, i)
    ensures forall i: nat :: i < k - 1 ==> !OccursAt(t[1..], target, i)
  {
    forall i: nat | i < k - 1
      ensures !OccursAt(t[1..], target, i)
    {
      OccursInSuffix(t[..1], t[1..], target, i + 1);
      assert t[..1] + t[1..] == t;
    }
  }

  /** A text without the target comes back unchanged. */
  lemma NoTargetUnchanged(t: string, target: string, replacement: string)
    requires |target| > 0 && !Contains(t, target)
    ensures ReplaceOccurrences(t, target, replacement) == t
  {
    UnchangedPrefix(t, target, replacement, |t|);
    assert t[..|t|] == t;
  }

  /** One step of the scan: an occurrence at the front is replaced. */
  lemma FirstReplaced(t: string, target: string, replacement: string)
    requires 0 < |target| <= |t| && t[..|target|] == target
    ensures ReplaceOccurrences(t, target, replacement)
         == replacement + ReplaceOccurrences(t[|target|..], target, replacement)
  {
  }

  /** Inside the marker, an `a` is never directly followed by `=` except at its start. */
  lemma PassiveLetters()
    ensures |PassiveSetup| == 15 && PassiveSetup[0] == 'a' && PassiveSetup[1] == '='
    ensures forall k :: 1 <= k < |PassiveSetup| && PassiveSetup[k] == 'a' ==>
      k + 1 < |PassiveSetup| && PassiveSetup[k + 1] != '='
  {
  }

  /** The same holds of the replacement, which differs from the marker. */
  lemma ActpassLetters()
    ensures |ActpassSetup| == 15 && ActpassSetup[0] == 'a' && ActpassSetup[1] == '='
    ensures ActpassSetup != PassiveSetup
    ensures forall k :: 1 <= k < |ActpassSetup| && ActpassSetup[k] == 'a' ==>
      k + 1 < |ActpassSetup| && ActpassSetup[k + 1] != '='
  {
  }

  /** An inserted `a=setup:actpass` does not begin with a proper tail of the marker. */
  lemma ReplacementStartsNoTail(rest: string, k: nat)
    requires 1 <= k < |PassiveSetup|
    ensures (ActpassSetup + rest)[..|PassiveSetup| - k] != PassiveSetup[k..]
  {
    PassiveLetters();
    ActpassLetters();
    var n := |PassiveSetup| - k;
    var r := (ActpassSetup + rest)[..n];
    assert r[0] == 'a' && PassiveSetup[k..][0] == PassiveSetup[k];
    if PassiveSetup[k] == 'a' {
      assert r[1] == '=' && PassiveSetup[k..][1] == PassiveSetup[k + 1];
    }
  }

  /** A rewrite that starts by inserting `a=setup:actpass` does not begin with a proper tail of the marker. */
  lemma FrontMarkerNoTail(t: string, k: nat)
    requires 1 <= k < |PassiveSetup| <= |t| && t[..|PassiveSetup|] == PassiveSetup
    ensures ForceActpass(t)[..|PassiveSetup| - k] != PassiveSetup[k..]
  {
    FirstReplaced(t, PassiveSetup, ActpassSetup);
    ReplacementStartsNoTail(ForceActpass(t[|PassiveSetup|..]), k);
  }

  /** A text starts with `p` when its head and the rest of its prefix agree with `p`. */
  lemma PrefixFromHead(t: string, p: string)
    requires 1 <= |p| <= |t| && t[0] == p[0]
    requires |p| > 1 ==> t[1..][..|p| - 1] == p[1..]
    ensures t[..|p|] == p
  {
    if |p| > 1 {
      assert t[..|p|] == [t[0]] + t[1..][..|p| - 1];
    }
  }

  /** A rewrite that starts by copying `t[0]` passes the rest of a marker tail on to `t[1..]`. */
  lemma CopiedFront(t: string, k: nat)
    requires 1 <= k < |PassiveSetup| <= |t| && t[..|PassiveSetup|] != PassiveSetup
    requires ForceActpass(t)[..|PassiveSetup| - k] == PassiveSetup[k..]
    ensures t[0] == PassiveSetup[k]
    ensures k + 1 < |PassiveSetup| ==>
      ForceActpass(t[1..])[..|PassiveSetup| - k - 1] == PassiveSetup[k + 1..]
  {
    var P, n := PassiveSetup, |PassiveSetup| - k;
    FirstCopied(t, P, ActpassSetup);
    var rest := ForceActpass(t[1..]);
    assert ForceActpass(t) == [t[0]] + rest;
    assert ForceActpass(t)[0] == P[k..][0];
    if n > 1 {
      assert rest[..n - 1] == ForceActpass(t)[1..n] == P[k + 1..];
    }
  }

  /**
    * If the rewrite of `t` begins with the tail `PassiveSetup[k..]` of the
    * marker, then so does `t` itself: the replacement text cannot complete a
    * partial marker.
    */
  lemma {:induction false} TailNotCreated(t: string, k: nat)
    requires 1 <= k < |PassiveSetup| && |PassiveSetup| - k <= |t|
    requires ForceActpass(t)[..|PassiveSetup| - k] == PassiveSetup[k..]
    ensures t[..|PassiveSetup| - k] == PassiveSetup[k..]
    decreases |PassiveSetup| - k
  {
    var P, R := PassiveSetup, ActpassSetup;
    var n := |P| - k;
    if |t| < |P| {
      assert ForceActpass(t) == t;
    } else if t[..|P|] == P {
      FrontMarkerNoTail(t, k);
      assert false;
    } else {
      CopiedFront(t, k);
      if n > 1 {
        TailNotCreated(t[1..], k + 1);
      }
      PrefixFromHead(t, P[k..]);
    }
  }

  /** No marker can start inside an inserted `a=setup:actpass`. */
  lemma NoMarkerInReplacement(rest: string, i: nat)
    requires i < |ActpassSetup|
    ensures !OccursAt(ActpassSetup + rest, PassiveSetup, i)
  {
    var r := ActpassSetup + rest;
    if OccursAt(r, PassiveSetup, i) {
      PassiveLetters();
      ActpassLetters();
      assert false;
    }
  }

  /** The rewritten offer carries no `a=setup:passive` attribute. */
  lemma {:induction false} NoPassiveAfterRewrite(s: string)
    ensures !Contains(ForceActpass(s), PassiveSetup)
    decreases |s|
  {
    var P, R := PassiveSetup, ActpassSetup;
    var r := ForceActpass(s);
    if |s| < |P| {
      assert r == s;
    } else if s[..|P|] == P {
      FirstReplaced(s, P, R);
      var rest := ForceActpass(s[|P|..]);
      NoPassiveAfterRewrite(s[|P|..]);
      forall i: nat
        ensures !OccursAt(r, P, i)
      {
        if i >= |R| {
          OccursInSuffix(R, rest, P, i);
        } else {
          NoMarkerInReplacement(rest, i);
        }
      }
    } else {
      var t := s[1..];
      FirstCopied(s, P, R);
      var rest := ForceActpass(t);
      NoPassiveAfterRewrite(t);
      forall i: nat
        ensures !OccursAt(r, P, i)
      {
        if i >= 1 {
          OccursInSuffix([s[0]], rest, P, i);
        } else if OccursAt(r, P, 0) {
          assert rest[..|P| - 1] == r[1..|P|] == P[1..];
          TailNotCreated(t, 1);
          assert false;
        }
      }
    }
  }

  /** A marker-free offer is left as it is. */
  lemma UnchangedWithoutPassive(s: string)
    requires !Contains(s, PassiveSetup)
    ensures ForceActpass(s) == s
  {
    NoTargetUnchanged(s, PassiveSetup, ActpassSetup);
  }

  /** Rewriting twice is rewriting once. */
  lemma ForceActpassIdempotent(s: string)
    ensures ForceActpass(ForceActpass(s)) == ForceActpass(s)
  {
    NoPassiveAfterRewrite(s);
    UnchangedWithoutPassive(ForceActpass(s));
  }

  /**
    * Two occurrences of the marker never overlap: an `a` inside it is never
    * followed by the `=` that starts it.
    */
  lemma MarkerNeverOverlaps(s: string, i: nat, j: nat)
    requires OccursAt(s, PassiveSetup, i) && i < j < i + |PassiveSetup|
    ensures !OccursAt(s, PassiveSetup, j)
  {
    PassiveLetters();
    var P := PassiveSetup;
    var k := j - i;
    assert s[j] == s[i..i + |P|][k] == P[k];
    if j + |P| <= |s| {
      if P[k] == 'a' {
        assert s[j + 1] == s[i..i + |P|][k + 1] == P[k + 1];
        assert s[j..j + |P|][1] == s[j + 1];
      } else {
        assert s[j..j + |P|][0] == s[j];
      }
    }
  }

  /** Every `a=setup:passive` of the offer is `a=setup:actpass` at the same place afterwards. */
  lemma {:induction false} MarkerBecomesActpass(s: string, i: nat)
    requires OccursAt(s, PassiveSetup, i)
    ensures OccursAt(ForceActpass(s), ActpassSetup, i)
    decreases |s|
  {
    var P, R := PassiveSetup, ActpassSetup;
    PassiveLetters();
    ActpassLetters();
    if s[..|P|] == P {
      FirstReplaced(s, P, R);
      var t := s[|P|..];
      var rest := ForceActpass(t);
      assert ForceActpass(s) == R + rest;
      if i == 0 {
        assert ForceActpass(s)[..|R|] == R;
      } else if i < |P| {
        MarkerNeverOverlaps(s, 0, i);
        assert false;
      } else {
        assert s[..|P|] + t == s;
        OccursInSuffix(s[..|P|], t, P, i);
        MarkerBecomesActpass(t, i - |P|);
        OccursInSuffix(R, rest, R, i);
      }
    } else {
      FirstCopied(s, P, R);
      if i == 0 {
        assert false;
      }
      var t := s[1..];
      var rest := ForceActpass(t);
      assert ForceActpass(s) == [s[0]] + rest;
      assert s[..1] + t == s;
      OccursInSuffix(s[..1], t, P, i);
      MarkerBecomesActpass(t, i - 1);
      OccursInSuffix([s[0]], rest, R, i);
    }
  }

  /** A character that lies in no occurrence of the marker is kept in place. */
  lemma {:induction false} OtherTextKept(s: string, j: nat)
    requires j < |s|
    requires forall i: nat :: i <= j < i + |PassiveSetup| ==> !OccursAt(s, PassiveSetup, i)
    ensures ForceActpass(s)[j] == s[j]
    decreases |s|
  {
    var P, R := PassiveSetup, ActpassSetup;
    PassiveLetters();
    ActpassLetters();
    if |s| < |P| {
      assert ForceActpass(s) == s;
    } else if s[..|P|] == P {
      FirstReplaced(s, P, R);
      assert OccursAt(s, P, 0);
      var t := s[|P|..];
      assert s[..|P|] + t == s;
      forall i: nat | i <= j - |P| < i + |P|
        ensures !OccursAt(t, P, i)
      {
        OccursInSuffix(s[..|P|], t, P, i + |P|);
      }
      OtherTextKept(t, j - |P|);
      assert ForceActpass(s) == R + ForceActpass(t);
    } else {
      FirstCopied(s, P, R);
      if j > 0 {
        var t := s[1..];
        assert s[..1] + t == s;
        forall i: nat | i <= j - 1 < i + |P|
          ensures !OccursAt(t, P, i)
        {
          OccursInSuffix(s[..1], t, P, i + 1);
        }
        OtherTextKept(t, j - 1);
        assert ForceActpass(s) == [s[0]] + ForceActpass(t);
      }
    }
  }
}
