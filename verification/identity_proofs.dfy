/** The identity proofs built on the hash-based proof generator: age above a threshold,
    KYC level above a minimum, and country of residence within an allowed set. The
    current date, the generation timestamp text and the random nonces are parameters;
    country codes are held as their UTF-8 bytes. */
module IdentityProofs {
  import opened Wrappers
  import opened Bytes
  import opened Commitments
  import opened Zkp
  import Merkle

  /** Proof errors, each carrying the generator error it wraps. */
  datatype ProofError = GenerationFailed(cause: ZkpError) | VerificationFailed(cause: ZkpError)

  // ----- Age -----

  /** A calendar date as chrono reports it: an `i32` year, a month and a day. */
  datatype Date = Date(year: int, month: nat, day: nat)

  predicate YearFits(d: Date) {
    -0x8000_0000 <= d.year < 0x8000_0000
  }

  /** (y, m, d) comes no later than `today` in calendar order. */
  predicate OnOrBefore(y: int, m: nat, d: nat, today: Date) {
    y < today.year || (y == today.year && (m < today.month || (m == today.month && d <= today.day)))
  }

  /** The n-th birthday of someone born on `dob` has been reached by `today`. */
  predicate BirthdayReached(dob: Date, n: int, today: Date) {
    OnOrBefore(dob.year + n, dob.month, dob.day, today)
  }

  /** `compute_age`: the year difference, one less while this year's birthday is still ahead.
      It is the number of birthdays reached: the age-th one is reached, the next one is not. */
  function ComputeAge(dob: Date, today: Date): (age: i64)
    requires YearFits(dob) && YearFits(today)
    ensures BirthdayReached(dob, age, today) && !BirthdayReached(dob, age + 1, today)
  {
    var age := today.year - dob.year;
    if today.month < dob.month || (today.month == dob.month && today.day < dob.day) then age - 1 else age
  }

  /** The worked values for someone born 1990-06-15. */
  lemma AgeExamples()
    ensures ComputeAge(Date(1990, 6, 15), Date(2025, 1, 1)) == 34
    ensures ComputeAge(Date(1990, 6, 15), Date(2025, 6, 15)) == 35
    ensures ComputeAge(Date(1990, 6, 15), Date(2025, 6, 14)) == 34
  {
  }

  const MAX_AGE: i64 := 150

  datatype AgeProof = AgeProof(minAge: i64, rangeProof: RangeProof, generatedAt: string)

  /** `AgeProof::create` on date `today`: a range proof that the age lies in [min_age, 150]. */
  function CreateAgeProof(dob: Date, minAge: i64, today: Date, ns: RangeNonces, generatedAt: string,
                          hash: seq<byte> -> Hash): (r: Result<AgeProof, ProofError>)
    requires YearFits(dob) && YearFits(today)
    ensures r.Err? <==> !(minAge <= ComputeAge(dob, today) <= MAX_AGE)
    ensures r.Err? ==> r.error == GenerationFailed(ValueOutOfRange(ComputeAge(dob, today), minAge, MAX_AGE))
    ensures r.Ok? ==> r.value.minAge == minAge && r.value.rangeProof.min == minAge && r.value.rangeProof.max == MAX_AGE
    ensures r.Ok? ==> r.value.rangeProof == ProveRange(ComputeAge(dob, today), minAge, MAX_AGE, ns, hash).value.0
  {
    match ProveRange(ComputeAge(dob, today), minAge, MAX_AGE, ns, hash)
    case Err(e) => Err(GenerationFailed(e))
    case Ok((p, _)) => Ok(AgeProof(minAge, p, generatedAt))
  }

  /** `AgeProof::verify`. */
  function VerifyAgeProof(p: AgeProof, hash: seq<byte> -> Hash): (r: Result<bool, ProofError>)
    ensures r.Ok? <==> VerifyRange(p.rangeProof, hash).Ok?
    ensures r.Ok? ==> r.value == VerifyRange(p.rangeProof, hash).value
  {
    match VerifyRange(p.rangeProof, hash)
    case Ok(b) => Ok(b)
    case Err(e) => Err(VerificationFailed(e))
  }

  /** Anyone at least `minAge` (and at most 150) years old gets an age proof that verifies. */
  lemma AgeProofVerifies(dob: Date, minAge: i64, today: Date, ns: RangeNonces, generatedAt: string,
                         hash: seq<byte> -> Hash)
    requires YearFits(dob) && YearFits(today)
    requires BirthdayReached(dob, minAge, today) && !BirthdayReached(dob, MAX_AGE + 1, today)
    ensures CreateAgeProof(dob, minAge, today, ns, generatedAt, hash).Ok?
    ensures VerifyAgeProof(CreateAgeProof(dob, minAge, today, ns, generatedAt, hash).value, hash) == Ok(true)
  {
    var age := ComputeAge(dob, today);
    AgeCounts(dob, today, minAge);
    AgeCounts(dob, today, MAX_AGE + 1);
    RangeProofVerifies(age, minAge, MAX_AGE, ns, hash);
  }

  /** The n-th birthday has been reached exactly when n is at most the age. */
  lemma AgeCounts(dob: Date, today: Date, n: int)
    requires YearFits(dob) && YearFits(today)
    ensures BirthdayReached(dob, n, today) <==> n <= ComputeAge(dob, today)
  {
  }

  // ----- KYC level -----

  const MAX_KYC_LEVEL: i64 := 3

  datatype KycLevelProof = KycLevelProof(minLevel: i64, maxLevel: i64, rangeProof: RangeProof, generatedAt: string)

  /** `KycLevelProof::create`: a range proof that the level lies in [min_level, 3]. */
  function CreateKycProof(actualLevel: i64, minLevel: i64, ns: RangeNonces, generatedAt: string,
                          hash: seq<byte> -> Hash): (r: Result<KycLevelProof, ProofError>)
    ensures r.Err? <==> !(minLevel <= actualLevel <= MAX_KYC_LEVEL)
    ensures r.Err? ==> r.error == GenerationFailed(ValueOutOfRange(actualLevel, minLevel, MAX_KYC_LEVEL))
    ensures r.Ok? ==> r.value.minLevel == minLevel && r.value.maxLevel == MAX_KYC_LEVEL
    ensures r.Ok? ==> r.value.rangeProof == ProveRange(actualLevel, minLevel, MAX_KYC_LEVEL, ns, hash).value.0
  {
    match ProveRange(actualLevel, minLevel, MAX_KYC_LEVEL, ns, hash)
    case Err(e) => Err(GenerationFailed(e))
    case Ok((p, _)) => Ok(KycLevelProof(minLevel, MAX_KYC_LEVEL, p, generatedAt))
  }

  /** `KycLevelProof::verify`. */
  function VerifyKycProof(p: KycLevelProof, hash: seq<byte> -> Hash): (r: Result<bool, ProofError>)
    ensures r.Ok? <==> VerifyRange(p.rangeProof, hash).Ok?
    ensures r.Ok? ==> r.value == VerifyRange(p.rangeProof, hash).value
  {
    match VerifyRange(p.rangeProof, hash)
    case Ok(b) => Ok(b)
    case Err(e) => Err(VerificationFailed(e))
  }

  /** A created KYC proof verifies; levels below the minimum are refused. */
  lemma KycProofVerifies(actualLevel: i64, minLevel: i64, ns: RangeNonces, generatedAt: string, hash: seq<byte> -> Hash)
    requires minLevel <= actualLevel <= MAX_KYC_LEVEL
    ensures VerifyKycProof(CreateKycProof(actualLevel, minLevel, ns, generatedAt, hash).value, hash) == Ok(true)
    ensures CreateKycProof(0, 1, ns, generatedAt, hash).Err? && CreateKycProof(1, 2, ns, generatedAt, hash).Err?
  {
    RangeProofVerifies(actualLevel, minLevel, MAX_KYC_LEVEL, ns, hash);
  }

  /** Level 0 against the minimum `i64::MIN` is within [min, 3], but the range prover as
      written overflows computing `0 - i64::MIN`; the corrected prover issues the proof. */
  lemma KycLevelOverflowWitness(ns: RangeNonces, generatedAt: string, hash: seq<byte> -> Hash)
    ensures ProveRangeAsWritten(0, -(TWO_63 as int), MAX_KYC_LEVEL, ns, hash) == Overflow
    ensures CreateKycProof(0, -(TWO_63 as int), ns, generatedAt, hash).Ok?
  {
  }

  // ----- Residency -----

  datatype ResidencyProof = ResidencyProof(
    membershipProof: SetMembershipProof,
    allowedSetRoot: Hash,
    setSize: nat,
    generatedAt: string)

  /** `ResidencyProof::create`: a membership proof of the country in the allowed list,
      published with the Merkle root of the allowed entries' hashes and their number. */
  function CreateResidencyProof(country: seq<byte>, allowed: seq<seq<byte>>, nonce: Nonce, generatedAt: string,
                                hash: seq<byte> -> Hash): (r: Result<ResidencyProof, ProofError>)
    ensures r.Err? <==> country !in allowed
    ensures r.Err? ==> r.error == GenerationFailed(ValueNotInSet)
    ensures r.Ok? ==> r.value.setSize == |allowed| &&
                      r.value.allowedSetRoot == Merkle.Root(Leaves(allowed, hash), hash) &&
                      r.value.membershipProof.setRoot == r.value.allowedSetRoot
  {
    var setRoot := Merkle.Root(Leaves(allowed, hash), hash);
    match ProveSetMembership(country, allowed, nonce, hash)
    case Err(e) => Err(GenerationFailed(e))
    case Ok((p, _)) => Ok(ResidencyProof(p, setRoot, |allowed|, generatedAt))
  }

  /** `ResidencyProof::verify`: the membership proof checked against the published root. */
  function VerifyResidencyProof(p: ResidencyProof, hash: seq<byte> -> Hash): (r: Result<bool, ProofError>)
    ensures r.Ok?
    ensures r.value <==> p.membershipProof.setRoot == p.allowedSetRoot &&
                         p.membershipProof.challenge == hash(RootChallengeInput(p.membershipProof.commitment.hash, p.allowedSetRoot))
  {
    match VerifySetMembership(p.membershipProof, p.allowedSetRoot, hash)
    case Ok(b) => Ok(b)
    case Err(e) => Err(VerificationFailed(e))
  }

  /** Any allowed country, first and last included, gets a residency proof that verifies. */
  lemma ResidencyProofVerifies(country: seq<byte>, allowed: seq<seq<byte>>, nonce: Nonce, generatedAt: string,
                               hash: seq<byte> -> Hash)
    requires country in allowed
    ensures CreateResidencyProof(country, allowed, nonce, generatedAt, hash).Ok?
    ensures VerifyResidencyProof(CreateResidencyProof(country, allowed, nonce, generatedAt, hash).value, hash) == Ok(true)
  {
    MembershipProofVerifies(country, allowed, nonce, Merkle.Root(Leaves(allowed, hash), hash), hash);
  }
}
