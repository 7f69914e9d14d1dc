/** The four character classes a password may draw from, their fixed
    alphabets, and the pool that `generate_password` assembles from the
    enabled classes. */
module Charset {
  import opened Wrappers

  datatype CharClass = Lower | Upper | Digit | Symbol

  /** `string.ascii_lowercase`, `string.ascii_uppercase`, `string.digits`
      and the literal symbol set of `generate_password`. */
  const LOWERCASE: string := "abcdefghijklmnopqrstuvwxyz"
  const UPPERCASE: string := "ABCDEFGHIJKLMNOPQRSTUVWXYZ"
  const DIGITS: string := "0123456789"
  const SYMBOLS: string := "!@#$%&*+-=?"

  function Alphabet(k: CharClass): string
  {
    match k
    case Lower => LOWERCASE
    case Upper => UPPERCASE
    case Digit => DIGITS
    case Symbol => SYMBOLS
  }

  /** The class a character belongs to, by ASCII range (and, for symbols, by
      membership in the literal set); None for every other character. */
  function ClassOf(c: char): Option<CharClass>
  {
    if 'a' <= c <= 'z' then Some(Lower)
    else if 'A' <= c <= 'Z' then Some(Upper)
    else if '0' <= c <= '9' then Some(Digit)
    else if c in SYMBOLS then Some(Symbol)
    else None
  }

  predicate InClass(c: char, k: CharClass)
  {
    ClassOf(c) == Some(k)
  }

  /** Position of a class in the canonical order lower, upper, digit, symbol. */
  function Rank(k: CharClass): nat
  {
    match k
    case Lower => 0
    case Upper => 1
    case Digit => 2
    case Symbol => 3
  }

  /** Rank of the class of a character; 4 for a character of no class. */
  function CharRank(c: char): nat
  {
    match ClassOf(c)
    case Some(k) => Rank(k)
    case None => 4
  }

  /** The pool of `generate_password`: the alphabet of every enabled class,
      appended in the order lower, upper, digit, symbol. */
  function Pool(enabled: set<CharClass>): (pool: string)
    ensures pool == [] <==> enabled == {}
  {
    assert forall k :: k in enabled ==> Section(enabled, k) != [];
    Section(enabled, Lower) + Section(enabled, Upper)
    + Section(enabled, Digit) + Section(enabled, Symbol)
  }

  /** The part of the pool contributed by class `k`. */
  function Section(enabled: set<CharClass>, k: CharClass): string
  {
    if k in enabled then Alphabet(k) else ""
  }

  lemma LowercaseAt(i: nat)
    requires i < 26
    ensures LOWERCASE[i] as int == 'a' as int + i
  {
  }

  lemma UppercaseAt(i: nat)
    requires i < 26
    ensures UPPERCASE[i] as int == 'A' as int + i
  {
  }

  lemma DigitsAt(i: nat)
    requires i < 10
    ensures DIGITS[i] as int == '0' as int + i
  {
  }

  /** Membership in a class's alphabet coincides with the range check. */
  lemma AlphabetIsClass(k: CharClass, c: char)
    ensures c in Alphabet(k) <==> InClass(c, k)
  {
    match k
    case Lower => LowercaseIsClass(c);
    case Upper => UppercaseIsClass(c);
    case Digit => DigitsIsClass(c);
    case Symbol =>
  }

  lemma LowercaseIsClass(c: char)
    ensures c in LOWERCASE <==> 'a' <= c <= 'z'
  {
    if c in LOWERCASE {
      var i :| 0 <= i < 26 && LOWERCASE[i] == c;
      LowercaseAt(i);
    }
    if 'a' <= c <= 'z' {
      LowercaseAt(c as int - 'a' as int);
      assert LOWERCASE[c as int - 'a' as int] == c;
    }
  }

  lemma UppercaseIsClass(c: char)
    ensures c in UPPERCASE <==> 'A' <= c <= 'Z'
  {
    if c in UPPERCASE {
      var i :| 0 <= i < 26 && UPPERCASE[i] == c;
      UppercaseAt(i);
    }
    if 'A' <= c <= 'Z' {
      UppercaseAt(c as int - 'A' as int);
      assert UPPERCASE[c as int - 'A' as int] == c;
    }
  }

  lemma DigitsIsClass(c: char)
    ensures c in DIGITS <==> '0' <= c <= '9'
  {
    if c in DIGITS {
      var i :| 0 <= i < 10 && DIGITS[i] == c;
      DigitsAt(i);
    }
    if '0' <= c <= '9' {
      DigitsAt(c as int - '0' as int);
      assert DIGITS[c as int - '0' as int] == c;
    }
  }

  /** A character is in the pool exactly when it belongs to the alphabet of
      an enabled class, and so exactly when its own class is enabled. */
  lemma PoolMembers(enabled: set<CharClass>, c: char)
    ensures c in Pool(enabled) <==> exists k :: k in enabled && c in Alphabet(k)
    ensures c in Pool(enabled) <==> ClassOf(c).Some? && ClassOf(c).value in enabled
  {
    AlphabetIsClass(Lower, c);
    AlphabetIsClass(Upper, c);
    AlphabetIsClass(Digit, c);
    AlphabetIsClass(Symbol, c);
  }

  predicate RankSorted(s: string)
  {
    forall i, j :: 0 <= i < j < |s| ==> CharRank(s[i]) <= CharRank(s[j])
  }

  predicate Distinct(s: string)
  {
    forall i, j :: 0 <= i < j < |s| ==> s[i] != s[j]
  }

  /** Every character of a section has the rank of that section's class. */
  lemma SectionRank(enabled: set<CharClass>, k: CharClass)
    ensures forall i :: 0 <= i < |Section(enabled, k)| ==> CharRank(Section(enabled, k)[i]) == Rank(k)
  {
    forall i | 0 <= i < |Section(enabled, k)|
      ensures CharRank(Section(enabled, k)[i]) == Rank(k)
    {
      AlphabetIsClass(k, Alphabet(k)[i]);
    }
  }

  /** The classes appear in the pool in the canonical order: no character of a
      later class comes before a character of an earlier one. */
  lemma PoolOrdered(enabled: set<CharClass>)
    ensures RankSorted(Pool(enabled))
  {
    var a, b, c, d := Section(enabled, Lower), Section(enabled, Upper),
                      Section(enabled, Digit), Section(enabled, Symbol);
    SectionRank(enabled, Lower);
    SectionRank(enabled, Upper);
    SectionRank(enabled, Digit);
    SectionRank(enabled, Symbol);
    var ab := a + b;
    assert forall i :: 0 <= i < |ab| ==> CharRank(ab[i]) <= 1;
    assert RankSorted(ab);
    var abc := ab + c;
    assert forall i :: 0 <= i < |abc| ==> CharRank(abc[i]) <= 2;
    assert RankSorted(abc);
    assert Pool(enabled) == abc + d;
  }

  lemma AlphabetDistinct(k: CharClass)
    ensures Distinct(Alphabet(k))
  {
    match k
    case Lower =>
      forall i, j | 0 <= i < j < 26 ensures LOWERCASE[i] != LOWERCASE[j] {
        LowercaseAt(i);
        LowercaseAt(j);
      }
    case Upper =>
      forall i, j | 0 <= i < j < 26 ensures UPPERCASE[i] != UPPERCASE[j] {
        UppercaseAt(i);
        UppercaseAt(j);
      }
    case Digit =>
      forall i, j | 0 <= i < j < 10 ensures DIGITS[i] != DIGITS[j] {
        DigitsAt(i);
        DigitsAt(j);
      }
    case Symbol =>
  }

  /** No character occurs twice in the pool, so each one is equally likely to
      be drawn. */
  lemma PoolDistinct(enabled: set<CharClass>)
    ensures Distinct(Pool(enabled))
  {
    var a, b, c, d := Section(enabled, Lower), Section(enabled, Upper),
                      Section(enabled, Digit), Section(enabled, Symbol);
    AlphabetDistinct(Lower);
    AlphabetDistinct(Upper);
    AlphabetDistinct(Digit);
    AlphabetDistinct(Symbol);
    SectionRank(enabled, Lower);
    SectionRank(enabled, Upper);
    SectionRank(enabled, Digit);
    SectionRank(enabled, Symbol);
    var ab := a + b;
    assert forall i :: 0 <= i < |ab| ==> CharRank(ab[i]) <= 1;
    assert Distinct(ab);
    var abc := ab + c;
    assert forall i :: 0 <= i < |abc| ==> CharRank(abc[i]) <= 2;
    assert Distinct(abc);
    assert Pool(enabled) == abc + d;
  }
}
