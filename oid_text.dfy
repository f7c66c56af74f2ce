/**
 * The dotted text of an OBJECT IDENTIFIER: character-level validity as
 * NTumbleBit/BouncyCastle/asn1/DerObjectIdentifier.cs checks it, and the arcs the text splits into.
 */
module OidText {
  import opened Decimal

  /** Every character is a digit or a dot, no dot follows a dot, and the text does not end in a dot. */
  predicate WellFormedSuffix(s: string)
  {
    && (forall i :: 0 <= i < |s| ==> IsDigit(s[i]) || s[i] == '.')
    && (forall i :: 0 <= i < |s| - 1 ==> s[i] == '.' ==> s[i + 1] != '.')
    && (|s| > 0 ==> s[|s| - 1] != '.')
  }

  /** A branch: non-empty, dot-separated runs of digits (no empty run anywhere). */
  predicate ValidBranch(s: string)
  {
    |s| > 0 && s[0] != '.' && WellFormedSuffix(s)
  }

  /** A whole identifier: a first arc 0, 1 or 2, a dot, then a branch. */
  predicate ValidIdentifier(s: string)
  {
    |s| >= 3 && s[1] == '.' && '0' <= s[0] <= '2' && ValidBranch(s[2..])
  }

  /** One more character on the left of a well-formed suffix, as the backward scan of IsValidBranchID sees it. */
  lemma WellFormedExtend(s: string, p: nat)
    requires p < |s|
    ensures WellFormedSuffix(s[p..]) <==>
      && (IsDigit(s[p]) || s[p] == '.')
      && (s[p] == '.' ==> p + 1 < |s| && IsDigit(s[p + 1]))
      && WellFormedSuffix(s[p + 1..])
  {
    var t, u := s[p..], s[p + 1..];
    assert forall i :: 0 <= i < |u| ==> u[i] == t[i + 1];
    if WellFormedSuffix(t) && s[p] == '.' {
      assert t[0] == '.';
      assert |t| > 1;
      assert t[1] == s[p + 1];
    }
    if && (IsDigit(s[p]) || s[p] == '.')
       && (s[p] == '.' ==> p + 1 < |s| && IsDigit(s[p + 1]))
       && WellFormedSuffix(u)
    {
      forall i | 0 <= i < |t| - 1 && t[i] == '.'
        ensures t[i + 1] != '.'
      {
        if i > 0 {
          assert t[i] == u[i - 1] && t[i + 1] == u[i];
        }
      }
      forall i | 0 <= i < |t|
        ensures IsDigit(t[i]) || t[i] == '.'
      {
        if i > 0 {
          assert t[i] == u[i - 1];
        }
      }
    }
  }

  lemma WellFormedDrop(s: string, a: nat, b: nat)
    requires a <= b <= |s| && WellFormedSuffix(s[a..])
    ensures WellFormedSuffix(s[b..])
  {
    var t, u := s[a..], s[b..];
    assert forall i :: 0 <= i < |u| ==> u[i] == t[i + b - a];
  }

  /** The index of the first dot, or |s| when there is none. */
  function FirstDot(s: string): (i: nat)
    ensures i <= |s|
    ensures i < |s| ==> s[i] == '.'
    ensures forall j :: 0 <= j < i ==> s[j] != '.'
  {
    if |s| == 0 || s[0] == '.' then 0 else 1 + FirstDot(s[1..])
  }

  /** The arcs of a text, split at every dot (what OidTokenizer hands out one by one). */
  function Arcs(s: string): (r: seq<string>)
    ensures |r| >= 1
    decreases |s|
  {
    var i := FirstDot(s);
    if i == |s| then [s] else [s[..i]] + Arcs(s[i + 1..])
  }

  /** Joins arcs with dots. */
  function JoinArcs(arcs: seq<string>): string
    requires |arcs| >= 1
  {
    if |arcs| == 1 then arcs[0] else arcs[0] + "." + JoinArcs(arcs[1..])
  }

  lemma {:induction false} JoinSplitArcs(s: string)
    ensures JoinArcs(Arcs(s)) == s
    decreases |s|
  {
    var i := FirstDot(s);
    if i < |s| {
      var tail := s[i + 1..];
      JoinSplitArcs(tail);
      assert tail == s[FirstDot(s) + 1..];
      JoinSplitArcsStep(s);
    }
  }

  /** The inductive step of JoinSplitArcs: from the part after the first dot to the whole text. */
  lemma JoinSplitArcsStep(s: string)
    requires FirstDot(s) < |s| && JoinArcs(Arcs(s[FirstDot(s) + 1..])) == s[FirstDot(s) + 1..]
    ensures JoinArcs(Arcs(s)) == s
  {
    var i := FirstDot(s);
    var head, tail := s[..i], s[i + 1..];
    assert tail == s[FirstDot(s) + 1..];
    ArcsAtFirstDot(s);
    JoinArcsCons(head, Arcs(tail));
    SplitAtDot(s, i);
  }

  lemma JoinArcsCons(head: string, rest: seq<string>)
    requires |rest| >= 1
    ensures JoinArcs([head] + rest) == head + "." + JoinArcs(rest)
  {
    assert ([head] + rest)[1..] == rest;
  }

  lemma SplitAtDot(s: string, i: nat)
    requires i < |s| && s[i] == '.'
    ensures s == s[..i] + "." + s[i + 1..]
  {
  }

  lemma {:induction false} JoinArcsAppend(arcs: seq<string>, last: string)
    requires |arcs| >= 1
    ensures JoinArcs(arcs + [last]) == JoinArcs(arcs) + "." + last
  {
    if |arcs| > 1 {
      JoinArcsAppend(arcs[1..], last);
      assert (arcs + [last])[1..] == arcs[1..] + [last];
    }
  }

  lemma {:induction false} JoinArcsConcat(xs: seq<string>, ys: seq<string>)
    requires |xs| >= 1 && |ys| >= 1
    ensures JoinArcs(xs + ys) == JoinArcs(xs) + "." + JoinArcs(ys)
  {
    if |xs| == 1 {
      assert (xs + ys)[1..] == ys;
    } else {
      JoinArcsConcat(xs[1..], ys);
      assert (xs + ys)[1..] == xs[1..] + ys;
    }
  }

  /** A dot-free head followed by a dot splits off as the first arc. */
  lemma ArcsOfDotted(a: string, b: string)
    requires forall j :: 0 <= j < |a| ==> a[j] != '.'
    ensures Arcs(a + "." + b) == [a] + Arcs(b)
  {
    var s := a + "." + b;
    FirstDotIs(s, |a|);
    assert s[..|a|] == a && s[|a| + 1..] == b;
  }

  lemma FirstDotIs(s: string, i: nat)
    requires i < |s| && s[i] == '.'
    requires forall j :: 0 <= j < i ==> s[j] != '.'
    ensures FirstDot(s) == i
  {
  }

  /** Splitting a dotted concatenation splits each side. */
  lemma {:induction false} ArcsOfConcat(x: string, y: string)
    ensures Arcs(x + "." + y) == Arcs(x) + Arcs(y)
    decreases |x|
  {
    var i := FirstDot(x);
    if i == |x| {
      ArcsOfDotted(x, y);
    } else {
      ArcsOfConcat(x[i + 1..], y);
      ArcsOfConcatStep(x, y);
    }
  }

  /** The inductive step of ArcsOfConcat: from the part after the first dot of x to the whole of x. */
  lemma ArcsOfConcatStep(x: string, y: string)
    requires FirstDot(x) < |x|
    requires Arcs(x[FirstDot(x) + 1..] + "." + y) == Arcs(x[FirstDot(x) + 1..]) + Arcs(y)
    ensures Arcs(x + "." + y) == Arcs(x) + Arcs(y)
  {
    var i := FirstDot(x);
    var head, tail := x[..i], x[i + 1..];
    ArcsRegrouped(x, y, i, head, tail);
    ArcsAtFirstDot(x);
    assert tail == x[FirstDot(x) + 1..];
    ArcsOfDottedSplit(head, tail + "." + y, Arcs(tail), Arcs(y));
  }

  lemma ArcsRegrouped(x: string, y: string, i: nat, head: string, tail: string)
    requires i < |x| && x[i] == '.' && head == x[..i] && tail == x[i + 1..]
    ensures Arcs(x + "." + y) == Arcs(head + "." + (tail + "." + y))
  {
    Regroup(x, i, y);
  }

  lemma ArcsOfDottedSplit(head: string, rest: string, front: seq<string>, back: seq<string>)
    requires forall j :: 0 <= j < |head| ==> head[j] != '.'
    requires Arcs(rest) == front + back
    ensures Arcs(head + "." + rest) == ([head] + front) + back
  {
    ArcsOfDotted(head, rest);
    assert [head] + (front + back) == ([head] + front) + back;
  }

  /** Arcs splits at the first dot, whose head has no dot. */
  lemma ArcsAtFirstDot(x: string)
    requires FirstDot(x) < |x|
    ensures Arcs(x) == [x[..FirstDot(x)]] + Arcs(x[FirstDot(x) + 1..])
    ensures forall j :: 0 <= j < |x[..FirstDot(x)]| ==> x[..FirstDot(x)][j] != '.'
  {
  }

  lemma Regroup(x: string, i: nat, y: string)
    requires i < |x| && x[i] == '.'
    ensures x + "." + y == x[..i] + "." + (x[i + 1..] + "." + y)
  {
    SplitAtDot(x, i);
  }

  /** The arcs of a valid branch are non-empty digit strings. */
  lemma {:induction false} ValidBranchArcs(s: string)
    requires ValidBranch(s)
    ensures forall a :: a in Arcs(s) ==> |a| > 0 && IsDigits(a)
    decreases |s|
  {
    var i := FirstDot(s);
    if i < |s| {
      var tail := s[i + 1..];
      assert i > 0;
      assert i + 1 < |s|;
      assert s[i + 1] != '.';
      assert ValidBranch(tail) by {
        forall j | 0 <= j < |tail| - 1 && tail[j] == '.'
          ensures tail[j + 1] != '.'
        {
          assert s[i + 1 + j] == '.';
        }
      }
      ValidBranchArcs(tail);
      assert IsDigits(s[..i]) by {
        forall j | 0 <= j < i ensures IsDigit(s[..i][j]) {
          assert s[j] != '.';
        }
      }
    } else {
      assert IsDigits(s) by {
        forall j | 0 <= j < |s| ensures IsDigit(s[j]) {
          assert s[j] != '.';
        }
      }
    }
  }

  /** Dotted branches remain branches: the text a Branch call builds. */
  lemma ValidBranchJoin(x: string, y: string)
    requires ValidBranch(x) && ValidBranch(y)
    ensures ValidBranch(x + "." + y)
  {
    var s := x + "." + y;
    forall i | 0 <= i < |s| - 1
      ensures s[i] == '.' ==> s[i + 1] != '.'
    {
      if i < |x| - 1 {
        assert s[i] == x[i] && s[i + 1] == x[i + 1];
      } else if i == |x| - 1 {
        assert s[i] == x[|x| - 1];
      } else if i == |x| {
        assert s[i + 1] == y[0];
      } else {
        assert s[i] == y[i - |x| - 1] && s[i + 1] == y[i - |x|];
      }
    }
    assert s[|s| - 1] == y[|y| - 1];
    assert forall i :: 0 <= i < |s| ==> IsDigit(s[i]) || s[i] == '.' by {
      forall i | 0 <= i < |s| ensures IsDigit(s[i]) || s[i] == '.' {
        if i < |x| { assert s[i] == x[i]; } else if i > |x| { assert s[i] == y[i - |x| - 1]; }
      }
    }
  }

  /** Conversely, non-empty digit runs joined with dots make a valid branch, which splits back into them. */
  lemma {:induction false} ArcsMakeValidBranch(arcs: seq<string>)
    requires |arcs| >= 1 && forall k :: 0 <= k < |arcs| ==> |arcs[k]| > 0 && IsDigits(arcs[k])
    ensures ValidBranch(JoinArcs(arcs)) && Arcs(JoinArcs(arcs)) == arcs
    decreases |arcs|
  {
    var head := arcs[0];
    assert ValidBranch(head);
    if |arcs| == 1 {
      assert FirstDot(head) == |head|;
    } else {
      var rest := arcs[1..];
      ArcsMakeValidBranch(rest);
      ValidBranchJoin(head, JoinArcs(rest));
      ArcsOfDotted(head, JoinArcs(rest));
      assert [head] + rest == arcs;
    }
  }

  /** The arcs of a valid identifier: the first-arc digit, then the arcs of the branch. */
  lemma IdentifierArcs(s: string)
    requires ValidIdentifier(s)
    ensures Arcs(s) == [s[..1]] + Arcs(s[2..])
    ensures |Arcs(s)| >= 2
    ensures forall a :: a in Arcs(s) ==> |a| > 0 && IsDigits(a)
  {
    assert s == s[..1] + "." + s[2..];
    ArcsOfDotted(s[..1], s[2..]);
    ValidBranchArcs(s[2..]);
  }

  /** Identifiers whose arcs are written without redundant leading zeros. */
  predicate CanonicalArcs(s: string)
  {
    forall i :: 0 <= i < |Arcs(s)| ==> IsCanonicalDigits(Arcs(s)[i])
  }
}
