/** Where a text can occur in a concatenation: in one of the parts, unless it lies across the seam. */
module Occurrences {
  import opened Text

  lemma OccursLeft(x: string, y: string, b: string, k: nat)
    requires k + |b| <= |x|
    ensures OccursAt(x + y, b, k) <==> OccursAt(x, b, k)
  {
    assert (x + y)[k..k + |b|] == x[k..k + |b|];
  }

  lemma OccursRight(x: string, y: string, b: string, k: nat)
    requires k >= |x|
    ensures OccursAt(x + y, b, k) <==> OccursAt(y, b, k - |x|)
  {
    if k + |b| <= |x + y| {
      assert (x + y)[k..k + |b|] == y[k - |x|..k - |x| + |b|];
    }
  }

  lemma OccursChar(s: string, b: string, k: nat, i: nat)
    requires OccursAt(s, b, k) && i < |b|
    ensures s[k + i] == b[i]
  {
    assert s[k..k + |b|][i] == s[k + i];
  }

  lemma ContainsLeft(x: string, y: string, b: string)
    requires Contains(x, b)
    ensures Contains(x + y, b) && IndexOf(x + y, b) == IndexOf(x, b)
  {
    var k := IndexOf(x, b);
    IndexOfFound(x, b);
    OccursLeft(x, y, b, k);
    IndexOfFirst(x + y, b, k);
    var j := IndexOf(x + y, b);
    IndexOfFound(x + y, b);
    OccursLeft(x, y, b, j);
    IndexOfFirst(x, b, j);
  }

  lemma ContainsRight(x: string, y: string, b: string)
    requires Contains(y, b)
    ensures Contains(x + y, b)
  {
    IndexOfFound(y, b);
    OccursRight(x, y, b, |x| + IndexOf(y, b));
    IndexOfFirst(x + y, b, |x| + IndexOf(y, b));
  }

  /** `b` does not lie across the seam of `x` and `y`. */
  ghost predicate Apart(x: string, y: string, b: string) {
    forall k: nat :: k < |x| < k + |b| ==> !OccursAt(x + y, b, k)
  }

  lemma SeamContains(x: string, y: string, b: string)
    requires Apart(x, y, b)
    ensures Contains(x + y, b) <==> Contains(x, b) || Contains(y, b)
  {
    if Contains(x, b) {
      ContainsLeft(x, y, b);
    }
    if Contains(y, b) {
      ContainsRight(x, y, b);
    }
    if Contains(x + y, b) {
      var k := IndexOf(x + y, b);
      IndexOfFound(x + y, b);
      if k + |b| <= |x| {
        OccursLeft(x, y, b, k);
        IndexOfFirst(x, b, k);
      } else if k >= |x| {
        OccursRight(x, y, b, k);
        IndexOfFirst(y, b, k - |x|);
      }
    }
  }

  /** The last character of `x` and the first of `y`, seen in an occurrence across the seam. */
  lemma AcrossSeam(x: string, y: string, b: string, k: nat)
    requires k < |x| < k + |b| && OccursAt(x + y, b, k)
    ensures y != "" && b[|x| - k - 1] == x[|x| - 1] && b[|x| - k] == y[0]
    ensures |y| > 1 && |x| - k + 1 < |b| ==> b[|x| - k + 1] == y[1]
  {
    OccursChar(x + y, b, k, |x| - k - 1);
    OccursChar(x + y, b, k, |x| - k);
    if |y| > 1 && |x| - k + 1 < |b| {
      OccursChar(x + y, b, k, |x| - k + 1);
    }
  }

  predicate EndsInLineFeed(x: string) {
    x == "" || x[|x| - 1] == '\n'
  }

  /** A single line lies within a line. */
  lemma LineApart(x: string, y: string, g: string)
    requires '\n' !in g && (EndsInLineFeed(x) || (y != "" && y[0] == '\n'))
    ensures Apart(x, y, g)
    ensures Contains(x + y, g) <==> Contains(x, g) || Contains(y, g)
  {
    forall k: nat | k < |x| < k + |g|
      ensures !OccursAt(x + y, g, k)
    {
      if OccursAt(x + y, g, k) {
        AcrossSeam(x, y, g, k);
      }
    }
    SeamContains(x, y, g);
  }

  /** Every line but the first starts with a hyphen. */
  predicate HyphenLines(b: string) {
    forall i :: 0 < i < |b| && b[i - 1] == '\n' ==> b[i] == '-'
  }

  /** So such a text does not go on over a line break into a line that starts otherwise. */
  lemma HyphensApart(x: string, y: string, b: string)
    requires HyphenLines(b) && EndsInLineFeed(x) && (y == "" || y[0] != '-')
    ensures Apart(x, y, b)
    ensures Contains(x + y, b) <==> Contains(x, b) || Contains(y, b)
  {
    forall k: nat | k < |x| < k + |b|
      ensures !OccursAt(x + y, b, k)
    {
      if OccursAt(x + y, b, k) {
        AcrossSeam(x, y, b, k);
      }
    }
    SeamContains(x, y, b);
  }

  lemma OccursStart(s: string, b: string, k: nat)
    requires b != "" && k < |s|
    ensures OccursAt(s, b, k) ==> s[k] == b[0]
  {
    if OccursAt(s, b, k) {
      OccursChar(s, b, k, 0);
    }
  }

  /** Text without the first character of `b` in front. */
  lemma FrontApart(o: string, y: string, b: string)
    requires b != "" && b[0] !in o
    ensures Apart(o, y, b)
    ensures Contains(o + y, b) <==> Contains(y, b)
  {
    forall k: nat | k < |o| < k + |b|
      ensures !OccursAt(o + y, b, k)
    {
      OccursStart(o + y, b, k);
      assert (o + y)[k] == o[k] && o[k] in o;
    }
    SeamContains(o, y, b);
    AbsentChar(o, b);
  }

  lemma AbsentChar(s: string, b: string)
    requires b != "" && b[0] !in s
    ensures !Contains(s, b)
  {
    if Contains(s, b) {
      IndexOfFound(s, b);
      OccursChar(s, b, IndexOf(s, b), 0);
    }
  }

  /** What contains `b` contains its beginning. */
  lemma ContainsPrefix(s: string, b: string, g: string)
    requires g <= b && Contains(s, b)
    ensures Contains(s, g) && IndexOf(s, g) <= IndexOf(s, b)
  {
    var k := IndexOf(s, b);
    IndexOfFound(s, b);
    assert s[k..k + |g|] == s[k..k + |b|][..|g|] == b[..|g|] == g;
    IndexOfFirst(s, g, k);
  }

  /** A text stands first where it is put, exactly when it is not contained before, provided it
      does not lie across the seam. */
  lemma FirstHere(x: string, b: string, y: string)
    requires b != "" && Apart(x, b + y, b)
    ensures IndexOf(x + (b + y), b) == |x| <==> !Contains(x, b)
  {
    var s := x + (b + y);
    OccursRight(x, b + y, b, |x|);
    assert (b + y)[..|b|] == b;
    IndexOfFirst(s, b, |x|);
    var k := IndexOf(s, b);
    IndexOfFound(s, b);
    if Contains(x, b) {
      ContainsLeft(x, b + y, b);
      IndexOfFound(x, b);
    } else if k + |b| <= |x| {
      OccursLeft(x, b + y, b, k);
      IndexOfFirst(x, b, k);
    }
  }
}
