/** Library-wide set-up of the mbedTLS back end: the libmbedcrypto_initialized
    flag and the CTR-DRBG it seeds. Entropy collection is opaque: whether
    seeding succeeds is an input. */
module CryptoLib {
  const SSH_OK: int := 0

  /** The flag and whether the random generator holds a seeded state. */
  datatype LibState = LibState(initialized: bool, drbgSeeded: bool)

  const PRISTINE: LibState := LibState(false, false)

  /** ssh_crypto_init: nothing to do once initialised; otherwise seeds the
      generator, drops it again if seeding fails, and is initialised either way. */
  function InitSpec(s: LibState, seedOk: bool): (r: LibState)
    ensures r.initialized
    ensures s.initialized ==> r == s
    ensures !s.initialized ==> r.drbgSeeded == seedOk
  {
    if s.initialized then s else LibState(true, seedOk)
  }

  /** ssh_crypto_finalize: a no-op unless initialised; then frees the
      generator and clears the flag. */
  function FinalizeSpec(s: LibState): (r: LibState)
    ensures !r.initialized
    ensures !s.initialized ==> r == s
    ensures s.initialized ==> !r.drbgSeeded
  {
    if s.initialized then LibState(false, false) else s
  }

  /** A second init changes nothing, whatever its seeding would have done. */
  lemma InitIdempotent(s: LibState, a: bool, b: bool)
    ensures InitSpec(InitSpec(s, a), b) == InitSpec(s, a)
  {
  }

  /** Finalize undoes init completely, so the library can be initialised again. */
  lemma FinalizeThenInit(a: bool, b: bool)
    ensures FinalizeSpec(InitSpec(PRISTINE, a)) == PRISTINE
    ensures InitSpec(FinalizeSpec(InitSpec(PRISTINE, a)), b) == InitSpec(PRISTINE, b)
  {
  }

  /** Across any run of init and finalize calls, a seeded generator is only
      ever held while the library is initialised. */
  ghost predicate SeededOnlyWhenInitialized(s: LibState)
  {
    s.drbgSeeded ==> s.initialized
  }

  datatype Call = Init(seedOk: bool) | Finalize

  function Run(s: LibState, calls: seq<Call>): LibState
    decreases |calls|
  {
    if calls == [] then s
    else
      var s' := match calls[0]
        case Init(ok) => InitSpec(s, ok)
        case Finalize => FinalizeSpec(s);
      Run(s', calls[1..])
  }

  lemma {:induction false} RunKeepsInvariant(s: LibState, calls: seq<Call>)
    requires SeededOnlyWhenInitialized(s)
    ensures SeededOnlyWhenInitialized(Run(s, calls))
    decreases |calls|
  {
    if calls != [] {
      var s' := match calls[0]
        case Init(ok) => InitSpec(s, ok)
        case Finalize => FinalizeSpec(s);
      RunKeepsInvariant(s', calls[1..]);
    }
  }

  /** The library-global state. */
  class Library {
    var initialized: bool
    var drbgSeeded: bool

    constructor ()
      ensures State() == PRISTINE
    {
      initialized := false;
      drbgSeeded := false;
    }

    function State(): LibState
      reads this
    {
      LibState(initialized, drbgSeeded)
    }

    method CryptoInit(seedOk: bool) returns (rc: int)
      modifies this
      ensures rc == SSH_OK
      ensures State() == InitSpec(old(State()), seedOk)
    {
      if initialized {
        return SSH_OK;
      }
      drbgSeeded := true;
      if !seedOk {
        drbgSeeded := false;
      }
      initialized := true;
      rc := SSH_OK;
    }

    method CryptoFinalize()
      modifies this
      ensures State() == FinalizeSpec(old(State()))
    {
      if !initialized {
        return;
      }
      drbgSeeded := false;
      initialized := false;
    }
  }
}
