/** The strength indicator of `update_strength`: one point for each of five
    content checks on the produced characters. Character tests are the ASCII
    range checks of `Charset.ClassOf`. */
module Strength {
  import opened Charset

  /** Passwords at least this long earn the length point. */
  const LONG_ENOUGH: nat := 8

  /** `any(...)` over the password: some character of the password is of
      class `k`, scanning from the front. */
  function Contains(pwd: string, k: CharClass): (r: bool)
    ensures r <==> exists i :: 0 <= i < |pwd| && InClass(pwd[i], k)
  {
    if pwd == [] then false
    else InClass(pwd[0], k) || Contains(pwd[1..], k)
  }

  function Point(b: bool): nat
  {
    if b then 1 else 0
  }

  /** The score shown by the strength bar. */
  function Score(pwd: string): (r: nat)
    ensures r <= 5
  {
    Point(|pwd| >= LONG_ENOUGH)
    + Point(Contains(pwd, Lower))
    + Point(Contains(pwd, Upper))
    + Point(Contains(pwd, Digit))
    + Point(Contains(pwd, Symbol))
  }

  /** The five checks, as an independent description of what is scored. */
  datatype Criterion = LongEnough | HasClass(k: CharClass)

  ghost predicate Meets(pwd: string, c: Criterion)
  {
    match c
    case LongEnough => |pwd| >= LONG_ENOUGH
    case HasClass(k) => exists x :: x in pwd && InClass(x, k)
  }

  const CRITERIA: set<Criterion> :=
    {LongEnough, HasClass(Lower), HasClass(Upper), HasClass(Digit), HasClass(Symbol)}

  ghost function Met(pwd: string): set<Criterion>
  {
    set c | c in CRITERIA && Meets(pwd, c)
  }

  /** The score is the number of criteria the password meets. */
  lemma ScoreCountsCriteria(pwd: string)
    ensures Score(pwd) == |Met(pwd)|
  {
    MetIsTally(pwd);
  }

  /** `Met` built one criterion at a time, in the order `update_strength`
      awards its points. */
  ghost function Tally(pwd: string): (r: set<Criterion>)
    ensures |r| == Score(pwd)
  {
    var s0: set<Criterion> := if |pwd| >= LONG_ENOUGH then {LongEnough} else {};
    var s1 := Extend(s0, HasClass(Lower), Contains(pwd, Lower));
    var s2 := Extend(s1, HasClass(Upper), Contains(pwd, Upper));
    var s3 := Extend(s2, HasClass(Digit), Contains(pwd, Digit));
    Extend(s3, HasClass(Symbol), Contains(pwd, Symbol))
  }

  lemma MetIsTally(pwd: string)
    ensures Met(pwd) == Tally(pwd)
  {
    var t := Tally(pwd);
    forall c | c in CRITERIA ensures c in t <==> Meets(pwd, c) {
      match c
      case LongEnough =>
      case HasClass(k) =>
        ContainsMeets(pwd, k);
    }
    assert forall c :: c in t ==> c in CRITERIA;
  }

  lemma ContainsMeets(pwd: string, k: CharClass)
    ensures Contains(pwd, k) <==> Meets(pwd, HasClass(k))
  {
    if Contains(pwd, k) {
      var i :| 0 <= i < |pwd| && InClass(pwd[i], k);
      assert pwd[i] in pwd;
    }
  }

  /** Adds `c` to `s` when `b` holds; the size grows by exactly that point. */
  function Extend<T(!new)>(s: set<T>, c: T, b: bool): (r: set<T>)
    requires c !in s
    ensures |r| == |s| + Point(b)
    ensures forall x :: x in r <==> x in s || (b && x == c)
  {
    if b then s + {c} else s
  }

  /** Full marks exactly when every criterion is met. */
  lemma ScoreFullIff(pwd: string)
    ensures Score(pwd) == 5 <==> forall c :: c in CRITERIA ==> Meets(pwd, c)
  {
    ContainsMeets(pwd, Lower);
    ContainsMeets(pwd, Upper);
    ContainsMeets(pwd, Digit);
    ContainsMeets(pwd, Symbol);
    var b0, b1, b2 := |pwd| >= LONG_ENOUGH, Contains(pwd, Lower), Contains(pwd, Upper);
    var b3, b4 := Contains(pwd, Digit), Contains(pwd, Symbol);
    assert Score(pwd) == Point(b0) + Point(b1) + Point(b2) + Point(b3) + Point(b4);
    FivePoints(b0, b1, b2, b3, b4);
    if forall c :: c in CRITERIA ==> Meets(pwd, c) {
      assert Meets(pwd, LongEnough) && Meets(pwd, HasClass(Lower)) && Meets(pwd, HasClass(Upper));
      assert Meets(pwd, HasClass(Digit)) && Meets(pwd, HasClass(Symbol));
    }
  }

  lemma FivePoints(b0: bool, b1: bool, b2: bool, b3: bool, b4: bool)
    ensures Point(b0) + Point(b1) + Point(b2) + Point(b3) + Point(b4) == 5 <==> b0 && b1 && b2 && b3 && b4
  {
  }

  /** No marks exactly when the password is short and has no character of any
      class. */
  lemma ScoreZeroIff(pwd: string)
    ensures Score(pwd) == 0 <==>
      |pwd| < LONG_ENOUGH && forall i :: 0 <= i < |pwd| ==> ClassOf(pwd[i]).None?
  {
  }

  /** A password that is no shorter and contains every character of another
      scores at least as much: scoring looks only at length and content. */
  lemma ScoreMonotone(p: string, q: string)
    requires |p| <= |q|
    requires forall x :: x in p ==> x in q
    ensures Score(p) <= Score(q)
  {
    forall k | Contains(p, k) ensures Contains(q, k) {
      var i :| 0 <= i < |p| && InClass(p[i], k);
      assert p[i] in p;
      var j :| 0 <= j < |q| && q[j] == p[i];
    }
  }

  /** Rearranging a password never changes its score. */
  lemma ScorePermutation(p: string, q: string)
    requires multiset(p) == multiset(q)
    ensures Score(p) == Score(q)
  {
    assert |p| == |multiset(p)| == |multiset(q)| == |q|;
    forall x | x in p ensures x in q {
      assert x in multiset(p);
    }
    forall x | x in q ensures x in p {
      assert x in multiset(q);
    }
    ScoreMonotone(p, q);
    ScoreMonotone(q, p);
  }

  /** The number of enabled classes. */
  lemma ClassCount(enabled: set<CharClass>)
    ensures |enabled| == Point(Lower in enabled) + Point(Upper in enabled)
                         + Point(Digit in enabled) + Point(Symbol in enabled)
  {
    var s0: set<CharClass> := if Lower in enabled then {Lower} else {};
    var s1 := Extend(s0, Upper, Upper in enabled);
    var s2 := Extend(s1, Digit, Digit in enabled);
    var s3 := Extend(s2, Symbol, Symbol in enabled);
    forall k ensures k in enabled <==> k in s3 {
      match k
      case Lower =>
      case Upper =>
      case Digit =>
      case Symbol =>
    }
    assert enabled == s3;
  }

  /** A password drawn from the pool of `enabled` scores at most one point per
      enabled class, plus the length point: scoring does not look at the
      request, but the request bounds what the content can earn. */
  lemma ScoreWithinPool(pwd: string, enabled: set<CharClass>)
    requires forall i :: 0 <= i < |pwd| ==> pwd[i] in Pool(enabled)
    ensures Score(pwd) <= Point(|pwd| >= LONG_ENOUGH) + |enabled|
  {
    forall k | Contains(pwd, k) ensures k in enabled {
      var i :| 0 <= i < |pwd| && InClass(pwd[i], k);
      PoolMembers(enabled, pwd[i]);
    }
    ClassCount(enabled);
  }

  /** Worked scores: the empty password, and seven and eight lower-case
      letters. */
  lemma ScoreExamples()
    ensures Score("") == 0
    ensures Score("abcdefg") == 1
    ensures Score("abcdefgh") == 2
  {
    LettersOnly("abcdefg");
    LettersOnly("abcdefgh");
  }

  /** A short mixed password that meets every criterion. */
  lemma FullMarksExample()
    ensures Score("aB3!aaaa") == 5
  {
    var s := "aB3!aaaa";
    assert InClass(s[0], Lower) && InClass(s[1], Upper);
    assert InClass(s[2], Digit) && InClass(s[3], Symbol);
  }

  /** A password of lower-case letters scores its lower-case point and, when
      long enough, its length point. */
  lemma LettersOnly(pwd: string)
    requires pwd != []
    requires forall i :: 0 <= i < |pwd| ==> 'a' <= pwd[i] <= 'z'
    ensures Score(pwd) == 1 + Point(|pwd| >= LONG_ENOUGH)
  {
    assert InClass(pwd[0], Lower);
  }
}
