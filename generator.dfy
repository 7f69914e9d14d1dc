/** Drawing a password from the pool. `random.choice` is modelled as an
    arbitrary index into the pool: nothing is assumed about how it is chosen,
    so the guarantees below hold for every outcome of the random source. */
module Generator {
  import opened Wrappers
  import opened Charset

  /** The only way generation fails: no class is enabled. */
  datatype GenError = EmptyAlphabet

  /** `''.join(random.choice(pool) for _ in range(length))`. */
  method Draw(pool: string, length: nat) returns (pwd: string)
    requires pool != []
    ensures |pwd| == length
    ensures forall i :: 0 <= i < |pwd| ==> pwd[i] in pool
  {
    pwd := "";
    for n := 0 to length
      invariant |pwd| == n
      invariant forall i :: 0 <= i < |pwd| ==> pwd[i] in pool
    {
      var k :| 0 <= k < |pool|;
      pwd := pwd + [pool[k]];
    }
  }

  /** Builds the pool class by class, rejects an empty one, and otherwise
      draws `length` characters from it. */
  method Generate(length: nat, enabled: set<CharClass>) returns (r: Result<string, GenError>)
    ensures r.Failure? <==> enabled == {}
    ensures r.Success? ==> |r.value| == length
    ensures r.Success? ==> forall i :: 0 <= i < |r.value| ==> r.value[i] in Pool(enabled)
    ensures r.Success? ==> forall i :: 0 <= i < |r.value| ==>
      ClassOf(r.value[i]).Some? && ClassOf(r.value[i]).value in enabled
  {
    var chars := "";
    if Lower in enabled { chars := chars + LOWERCASE; }
    assert chars == Section(enabled, Lower);
    if Upper in enabled { chars := chars + UPPERCASE; }
    assert chars == Section(enabled, Lower) + Section(enabled, Upper);
    if Digit in enabled { chars := chars + DIGITS; }
    assert chars == Section(enabled, Lower) + Section(enabled, Upper) + Section(enabled, Digit);
    if Symbol in enabled { chars := chars + SYMBOLS; }
    assert chars == Pool(enabled);
    if chars == "" {
      return Failure(EmptyAlphabet);
    }
    var pwd := Draw(chars, length);
    forall i | 0 <= i < |pwd|
      ensures ClassOf(pwd[i]).Some? && ClassOf(pwd[i]).value in enabled
    {
      PoolMembers(enabled, pwd[i]);
    }
    return Success(pwd);
  }
}
