/**
  The pieces of Python's `str` API that the modelled code uses: substring test
  (`pat in s`), `s.replace(pat, rep)` and `s.lower()` restricted to ASCII.
*/
module Text {

  /** `p` is a prefix of `s`. */
  predicate IsPrefix(p: string, s: string)
  {
    |p| <= |s| && s[..|p|] == p
  }

  /** Python's `pat in s`: `pat` occurs somewhere in `s`. */
  predicate Contains(s: string, pat: string)
    decreases |s|
  {
    IsPrefix(pat, s) || (|s| > 0 && Contains(s[1..], pat))
  }

  /**
    Python's `s.replace(pat, rep)` for a non-empty `pat`: scanning from the left,
    each occurrence of `pat` is replaced by `rep` and the scan resumes after it,
    so the replaced occurrences never overlap.
  */
  function ReplaceAll(s: string, pat: string, rep: string): string
    requires |pat| > 0
    decreases |s|
  {
    if |s| < |pat| then s
    else if s[..|pat|] == pat then rep + ReplaceAll(s[|pat|..], pat, rep)
    else [s[0]] + ReplaceAll(s[1..], pat, rep)
  }

  /** Number of occurrences `ReplaceAll` replaces (Python's `s.count(pat)`). */
  function Count(s: string, pat: string): nat
    requires |pat| > 0
    decreases |s|
  {
    if |s| < |pat| then 0
    else if s[..|pat|] == pat then 1 + Count(s[|pat|..], pat)
    else Count(s[1..], pat)
  }

  /** ASCII part of Python's `str.lower()` on one character. */
  function LowerChar(c: char): char
  {
    if 'A' <= c <= 'Z' then (c as int + 32) as char else c
  }

  predicate IsUpperAscii(c: char)
  {
    'A' <= c <= 'Z'
  }

  /** Python's `s.lower()`, on ASCII letters only. */
  function LowerAscii(s: string): (r: string)
    ensures |r| == |s|
    ensures forall i :: 0 <= i < |s| ==> r[i] == LowerChar(s[i])
    ensures forall i :: 0 <= i < |r| ==> !IsUpperAscii(r[i])
  {
    seq(|s|, i requires 0 <= i < |s| => LowerChar(s[i]))
  }

  lemma {:induction false} ContainsIsLonger(s: string, pat: string)
    requires Contains(s, pat)
    ensures |pat| <= |s|
    decreases |s|
  {
    if !IsPrefix(pat, s) {
      ContainsIsLonger(s[1..], pat);
    }
  }

  /** An occurrence survives putting anything in front of the string. */
  lemma {:induction false} ContainsPrepend(x: string, s: string, pat: string)
    requires Contains(s, pat)
    ensures Contains(x + s, pat)
    decreases |x|
  {
    if x != [] {
      ContainsPrepend(x[1..], s, pat);
      assert (x + s)[1..] == x[1..] + s;
    } else {
      assert x + s == s;
    }
  }

  /** `pat in s` exactly when `s.count(pat)` is positive. */
  lemma {:induction false} ContainsIffCount(s: string, pat: string)
    requires |pat| > 0
    ensures Contains(s, pat) <==> Count(s, pat) > 0
    decreases |s|
  {
    if |s| < |pat| {
      if Contains(s, pat) {
        ContainsIsLonger(s, pat);
      }
    } else if s[..|pat|] != pat {
      ContainsIffCount(s[1..], pat);
    }
  }

  /** One more occurrence adds one more change of length. */
  lemma OneMore(c: int, d: int)
    ensures (1 + c) * d == d + c * d
  {
  }

  /** Each replaced occurrence changes the length by `|rep| - |pat|`. */
  lemma {:induction false} ReplaceAllLength(s: string, pat: string, rep: string)
    requires |pat| > 0
    ensures |ReplaceAll(s, pat, rep)| == |s| + Count(s, pat) * (|rep| - |pat|)
    decreases |s|
  {
    if |s| < |pat| {
    } else if s[..|pat|] == pat {
      ReplaceAllLength(s[|pat|..], pat, rep);
      OneMore(Count(s[|pat|..], pat), |rep| - |pat|);
    } else {
      ReplaceAllLength(s[1..], pat, rep);
    }
  }

  /** When `pat` occurs, its replacement `rep` occurs in the result. */
  lemma {:induction false} ReplaceAllShowsRep(s: string, pat: string, rep: string)
    requires |pat| > 0 && Contains(s, pat)
    ensures Contains(ReplaceAll(s, pat, rep), rep)
    decreases |s|
  {
    ContainsIsLonger(s, pat);
    if s[..|pat|] == pat {
      var t := ReplaceAll(s[|pat|..], pat, rep);
      assert (rep + t)[..|rep|] == rep;
      assert IsPrefix(rep, rep + t);
    } else {
      assert !IsPrefix(pat, s);
      ReplaceAllShowsRep(s[1..], pat, rep);
      ContainsPrepend([s[0]], ReplaceAll(s[1..], pat, rep), rep);
    }
  }

  /** `pat` occurs in `s` starting at index `p`. */
  predicate OccursAt(s: string, pat: string, p: int)
  {
    0 <= p && p + |pat| <= |s| && s[p..p + |pat|] == pat
  }

  /** `pat in s` names an index where `pat` starts. */
  lemma {:induction false} ContainsFindsOccurrence(s: string, pat: string)
    requires Contains(s, pat)
    ensures exists p :: OccursAt(s, pat, p)
    decreases |s|
  {
    if IsPrefix(pat, s) {
      assert OccursAt(s, pat, 0);
    } else {
      ContainsFindsOccurrence(s[1..], pat);
      var p :| OccursAt(s[1..], pat, p);
      assert s[1..][p..p + |pat|] == s[p + 1..p + 1 + |pat|];
      assert OccursAt(s, pat, p + 1);
    }
  }

  /** An occurrence at any index makes `pat in s` hold. */
  lemma {:induction false} OccurrenceContains(s: string, pat: string, p: nat)
    requires OccursAt(s, pat, p)
    ensures Contains(s, pat)
    decreases p
  {
    if p == 0 {
      assert IsPrefix(pat, s);
    } else {
      assert s[1..][p - 1..p - 1 + |pat|] == s[p..p + |pat|];
      OccurrenceContains(s[1..], pat, p - 1);
    }
  }

  /** A path segment `/name/`: a slash at each end and none in between. */
  predicate IsSegment(s: string)
  {
    && |s| >= 2 && s[0] == '/' && s[|s| - 1] == '/'
    && forall i :: 0 < i < |s| - 1 ==> s[i] != '/'
  }

  /** Two segments that start at the same index are the same segment. */
  lemma SameStartSameSegment(u: string, s: string, pat: string)
    requires IsSegment(s) && IsSegment(pat) && OccursAt(u, s, 0) && OccursAt(u, pat, 0)
    ensures s == pat
  {
    assert s == u[..|s|];
    assert pat == u[..|pat|];
  }

  /**
    A segment that starts inside another one (not at its closing slash) is
    that same segment, starting at the same index.
  */
  lemma SegmentStartsAfter(u: string, s: string, pat: string, p: nat)
    requires IsSegment(s) && IsSegment(pat)
    requires OccursAt(u, pat, 0) && OccursAt(u, s, p)
    ensures p >= |pat| - 1 || s == pat
  {
    if p == 0 {
      SameStartSameSegment(u, s, pat);
    }
  }

  /**
    When `v` starts with `w`, a run of non-slash characters closed by a slash
    (and possibly opened by one where `pat` does not start), replacing a
    slash-led `pat` by a slash-led `rep` keeps `w` at the front.
  */
  lemma {:induction false} ReplaceAllKeepsPrefix(v: string, w: string, pat: string, rep: string)
    requires |pat| > 0 && pat[0] == '/' && |rep| > 0 && rep[0] == '/'
    requires |w| > 0 && w[|w| - 1] == '/' && forall i :: 0 < i < |w| - 1 ==> w[i] != '/'
    requires IsPrefix(w, v)
    requires |w| == 1 || w[0] != '/' || !IsPrefix(pat, v)
    ensures IsPrefix(w, ReplaceAll(v, pat, rep))
    decreases |w|
  {
    if |v| < |pat| {
    } else if |w| == 1 {
      assert v[0] == w[0];
    } else {
      assert v[0] == w[0];
      assert v[..|pat|] != pat by {
        if w[0] != '/' {
          assert v[..|pat|][0] != pat[0];
        }
      }
      assert w[1] != '/' || |w| == 2;
      ReplaceAllKeepsPrefix(v[1..], w[1..], pat, rep);
      var t := ReplaceAll(v[1..], pat, rep);
      assert ReplaceAll(v, pat, rep) == [v[0]] + t;
      assert ([v[0]] + t)[..|w|] == [v[0]] + t[..|w| - 1];
    }
  }

  /** Dropping `k` characters in front of an occurrence moves it `k` places left. */
  lemma DropOccurrence(u: string, s: string, k: nat, p: nat)
    requires OccursAt(u, s, p) && k <= p
    ensures OccursAt(u[k..], s, p - k)
  {
    assert u[k..][p - k..p - k + |s|] == u[p..p + |s|];
  }

  /** An occurrence that starts just before index `k` leaves its tail at the front of `u[k..]`. */
  lemma BoundaryPrefix(u: string, s: string, k: nat)
    requires k >= 1 && |s| >= 1 && OccursAt(u, s, k - 1)
    ensures IsPrefix(s[1..], u[k..])
  {
    assert u[k..][..|s| - 1] == u[k..k - 1 + |s|] == u[k - 1..k - 1 + |s|][1..];
  }

  /**
    A segment whose first character is the closing slash of a replaced
    occurrence survives: `rep` ends with a slash and the rest of the segment
    stays at the front of the remainder.
  */
  lemma SegmentAtBoundary(rest: string, s: string, pat: string, rep: string)
    requires IsSegment(s) && |pat| > 0 && pat[0] == '/'
    requires |rep| > 0 && rep[0] == '/' && rep[|rep| - 1] == '/'
    requires IsPrefix(s[1..], rest)
    ensures Contains(rep + ReplaceAll(rest, pat, rep), s)
  {
    ReplaceAllKeepsPrefix(rest, s[1..], pat, rep);
    var t := ReplaceAll(rest, pat, rep);
    assert (rep + t)[|rep| - 1..|rep| - 1 + |s|] == [rep[|rep| - 1]] + t[..|s| - 1];
    OccurrenceContains(rep + t, s, |rep| - 1);
  }

  /**
    Replacing one path segment leaves every occurrence of a different segment
    in place, as long as the replacement also starts and ends with a slash.
  */
  lemma {:induction false} SegmentSurvivesReplace(u: string, s: string, pat: string, rep: string, p: nat)
    requires IsSegment(s) && IsSegment(pat) && s != pat
    requires |rep| > 0 && rep[0] == '/' && rep[|rep| - 1] == '/'
    requires OccursAt(u, s, p)
    ensures Contains(ReplaceAll(u, pat, rep), s)
    decreases |u|
  {
    if |u| < |pat| {
      OccurrenceContains(u, s, p);
    } else if u[..|pat|] == pat {
      var rest := u[|pat|..];
      assert ReplaceAll(u, pat, rep) == rep + ReplaceAll(rest, pat, rep);
      SegmentStartsAfter(u, s, pat, p);
      if p == |pat| - 1 {
        BoundaryPrefix(u, s, |pat|);
        SegmentAtBoundary(rest, s, pat, rep);
      } else {
        DropOccurrence(u, s, |pat|, p);
        SegmentSurvivesReplace(rest, s, pat, rep, p - |pat|);
        ContainsPrepend(rep, ReplaceAll(rest, pat, rep), s);
      }
    } else {
      var t := ReplaceAll(u[1..], pat, rep);
      assert ReplaceAll(u, pat, rep) == [u[0]] + t;
      if p == 0 {
        ReplaceAllKeepsPrefix(u, s, pat, rep);
      } else {
        DropOccurrence(u, s, 1, p);
        SegmentSurvivesReplace(u[1..], s, pat, rep, p - 1);
        ContainsPrepend([u[0]], t, s);
      }
    }
  }

  /**
    Replacing a one-character pattern is a character-by-character map, so
    `s.replace(a, b)` for single characters keeps the length and changes
    exactly the positions that held `a`.
  */
  lemma {:induction false} ReplaceCharPointwise(s: string, a: char, b: char)
    ensures |ReplaceAll(s, [a], [b])| == |s|
    ensures forall i :: 0 <= i < |s| ==>
              ReplaceAll(s, [a], [b])[i] == if s[i] == a then b else s[i]
    decreases |s|
  {
    if s != [] {
      ReplaceCharPointwise(s[1..], a, b);
      assert s[..1] == [s[0]];
      var r := ReplaceAll(s, [a], [b]);
      assert r == [if s[0] == a then b else s[0]] + ReplaceAll(s[1..], [a], [b]);
      forall i | 0 < i < |s|
        ensures r[i] == if s[i] == a then b else s[i]
      {
        assert r[i] == ReplaceAll(s[1..], [a], [b])[i - 1];
        assert s[1..][i - 1] == s[i];
      }
    }
  }

  /** A one-character pattern whose replacement does not contain it disappears entirely. */
  lemma {:induction false} ReplaceAllRemovesChar(s: string, c: char, rep: string)
    requires c !in rep
    ensures c !in ReplaceAll(s, [c], rep)
    decreases |s|
  {
    if s != [] {
      ReplaceAllRemovesChar(s[1..], c, rep);
      assert s[..1] == [s[0]];
    }
  }

  /**
    Escaping a character `c` as `enc` and then un-escaping gives the string
    back, as long as the escape's first character never occurs in the input.
  */
  lemma {:induction false} EscapeRoundTrip(q: string, c: char, enc: string)
    requires |enc| > 0 && enc[0] !in q
    ensures ReplaceAll(ReplaceAll(q, [c], enc), enc, [c]) == q
    decreases |q|
  {
    if q != [] {
      var rest := q[1..];
      assert q[..1] == [q[0]];
      var e := ReplaceAll(rest, [c], enc);
      EscapeRoundTrip(rest, c, enc);
      if q[0] == c {
        assert ReplaceAll(q, [c], enc) == enc + e;
        assert (enc + e)[..|enc|] == enc;
        assert (enc + e)[|enc|..] == e;
        assert ReplaceAll(enc + e, enc, [c]) == [c] + rest;
      } else {
        assert ReplaceAll(q, [c], enc) == [q[0]] + e;
        var t := [q[0]] + e;
        assert t[1..] == e;
        if |t| < |enc| {
          assert ReplaceAll(e, enc, [c]) == e;
          assert t == q;
        } else {
          assert t[..|enc|][0] == q[0] != enc[0];
          assert ReplaceAll(t, enc, [c]) == [q[0]] + rest;
        }
      }
    }
  }
}
