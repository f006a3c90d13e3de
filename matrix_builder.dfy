/**
 * The matrix builder the webhook controller uses: fetch a repository's
 * civicarrot.json manifest, default the missing dimensions to placeholders,
 * encode the matrix and substitute each placeholder present with a version
 * derived from the package registry (cached per package) or from the PHP runtime.
 */
module MatrixBuilder {
  import opened Wrappers
  import opened Text
  import opened Json
  import opened Placeholders
  import opened Remote

  const DrupalPackage := "drupal/core"
  const CiviPackage := "civicrm/civicrm-core"

  /** The registry's metadata document for a package. */
  function PackageUrl(package: string): string {
    "https://repo.packagist.org/p2/" + package + ".json"
  }

  /** Distinct packages have distinct registry documents. */
  lemma PackageUrlInjective(p: string, q: string)
    requires PackageUrl(p) == PackageUrl(q)
    ensures p == q
  {
    var prefix := "https://repo.packagist.org/p2/";
    assert p == PackageUrl(p)[|prefix|..|PackageUrl(p)| - 5];
    assert q == PackageUrl(q)[|prefix|..|PackageUrl(q)| - 5];
  }

  /** Where a repository publishes its manifest for a given commit. */
  function ManifestUrl(repoUrl: string, commit: string): string {
    repoUrl + "/-/raw/" + commit + "/tests/civicarrot.json"
  }

  /** `substr($s, -4, 4) === '.git'` */
  predicate HasDotGit(s: string) {
    |s| >= 4 && s[|s| - 4..] == ".git"
  }

  /** `removeDotGit`: drop one trailing ".git", otherwise leave the URL alone. */
  function RemoveDotGit(s: string): (r: string)
    ensures HasDotGit(s) ==> r + ".git" == s
    ensures !HasDotGit(s) ==> r == s
  {
    if HasDotGit(s) then s[..|s| - 4] else s
  }

  /** Removing ".git" undoes appending it. */
  lemma RemoveDotGitOfClone(u: string)
    ensures RemoveDotGit(u + ".git") == u
  {
    assert (u + ".git")[|u|..] == ".git";
  }

  /** A JSON list as PHP holds it: the items under the keys "0", "1", …. */
  function ListMembers(items: seq<Json>): (r: seq<Member>)
    ensures |r| == |items| && IsList(r)
    ensures forall k :: 0 <= k < |r| ==> r[k].value == items[k]
  {
    seq(|items|, k requires 0 <= k < |items| => Member(NatToString(k), items[k]))
  }

  /**
   * `$matrix['singlePR'] ?? []` handed to `fillMatrix(array $matrix)`: a missing
   * or null value is `[]`, an object or a list is the array itself, and a scalar
   * raises a TypeError because the parameter accepts only arrays.
   */
  function ManifestMatrix(singlePR: Option<Json>): (r: Result<seq<Member>>)
    ensures r.Failure? <==> singlePR.Some? && (singlePR.value.JBool? || singlePR.value.JInt? || singlePR.value.JStr?)
    ensures r.Failure? ==> r.error == ArgumentType("matrix")
    ensures singlePR.None? || singlePR == Some(JNull) ==> r == Success([])
    ensures singlePR.Some? && singlePR.value.JObj? ==> r == Success(singlePR.value.members)
    ensures singlePR.Some? && singlePR.value.JArr? ==>
      && r.Success? && IsList(r.value)
      && |r.value| == |singlePR.value.items|
      && forall k :: 0 <= k < |r.value| ==> r.value[k].value == singlePR.value.items[k]
  {
    match singlePR.GetOr(JNull)
    case JNull => Success([])
    case JObj(ms) => Success(ms)
    case JArr(items) => Success(ListMembers(items))
    case _ => Failure(ArgumentType("matrix"))
  }

  // ---------------------------------------------------------------------------
  // Default-filling (`fillMatrix`)

  const PhpDimension := "php-versions"
  const DrupalDimension := "drupal"
  const CiviDimension := "civicrm"

  /** The one-element list a missing dimension receives. */
  function Placeholder(t: Token): Json {
    JArr([JStr(TokenText(t))])
  }

  function FillDimension(m: seq<Member>, key: string, t: Token): seq<Member> {
    if EmptyAt(m, key) then Put(m, key, Placeholder(t)) else m
  }

  /** What `fillMatrix` returns: the three dimensions defaulted unless `include` is set. */
  function Filled(m: seq<Member>): seq<Member> {
    if IsSet(m, "include") then m
    else
      var withPhp := FillDimension(m, PhpDimension, PhpSensible);
      var withDrupal := FillDimension(withPhp, DrupalDimension, DrupalLatest);
      FillDimension(withDrupal, CiviDimension, CiviReleaseCandidate)
  }

  /** The matrix `fillMatrix` makes of `[]`. */
  const DefaultMatrix := [Member(PhpDimension, Placeholder(PhpSensible)),
                          Member(DrupalDimension, Placeholder(DrupalLatest)),
                          Member(CiviDimension, Placeholder(CiviReleaseCandidate))]

  /** An empty manifest gets the three placeholders, in the order of the three `empty()` tests. */
  lemma FilledOfEmpty()
    ensures Filled([]) == DefaultMatrix
  {
    var one := [Member(PhpDimension, Placeholder(PhpSensible))];
    var two := one + [Member(DrupalDimension, Placeholder(DrupalLatest))];
    PutNew([], PhpDimension, Placeholder(PhpSensible));
    assert Get(one, DrupalDimension).None? by {
      assert one[1..] == [];
    }
    PutNew(one, DrupalDimension, Placeholder(DrupalLatest));
    assert Get(two, CiviDimension).None? by {
      assert two[1..][1..] == [];
    }
    PutNew(two, CiviDimension, Placeholder(CiviReleaseCandidate));
  }

  /** A dimension that was missing or empty holds its placeholder; any other keeps its value. */
  predicate DimensionFilled(before: seq<Member>, after: seq<Member>, key: string, t: Token) {
    && (EmptyAt(before, key) ==> Get(after, key) == Some(Placeholder(t)))
    && (!EmptyAt(before, key) ==> Get(after, key) == Get(before, key))
  }

  /** Defaulting one dimension touches only that dimension and keeps the order of the other keys. */
  lemma FillDimensionSpec(m: seq<Member>, key: string, t: Token)
    ensures DimensionFilled(m, FillDimension(m, key, t), key, t)
    ensures forall k :: k != key ==> Get(FillDimension(m, key, t), k) == Get(m, k)
    ensures |Keys(FillDimension(m, key, t))| >= |Keys(m)|
    ensures Keys(FillDimension(m, key, t))[..|Keys(m)|] == Keys(m)
  {
  }

  /** Without `include`, each known dimension is defaulted exactly when missing or empty; nothing else changes. */
  lemma {:induction false} FilledWithoutInclude(m: seq<Member>)
    requires !IsSet(m, "include")
    ensures DimensionFilled(m, Filled(m), PhpDimension, PhpSensible)
    ensures DimensionFilled(m, Filled(m), DrupalDimension, DrupalLatest)
    ensures DimensionFilled(m, Filled(m), CiviDimension, CiviReleaseCandidate)
    ensures forall k :: k != PhpDimension && k != DrupalDimension && k != CiviDimension ==> Get(Filled(m), k) == Get(m, k)
    ensures Keys(Filled(m))[..|Keys(m)|] == Keys(m)
  {
    FilledDefaults(m);
    FilledDefaultsKeepRest(m);
  }

  /** The three defaulting steps of `fillMatrix`, one after the other: each dimension ends up filled. */
  lemma {:induction false} FilledDefaults(m: seq<Member>)
    ensures var r := FillDimension(FillDimension(FillDimension(m, PhpDimension, PhpSensible), DrupalDimension, DrupalLatest), CiviDimension, CiviReleaseCandidate);
      && DimensionFilled(m, r, PhpDimension, PhpSensible)
      && DimensionFilled(m, r, DrupalDimension, DrupalLatest)
      && DimensionFilled(m, r, CiviDimension, CiviReleaseCandidate)
  {
    var a := FillDimension(m, PhpDimension, PhpSensible);
    var b := FillDimension(a, DrupalDimension, DrupalLatest);
    var c := FillDimension(b, CiviDimension, CiviReleaseCandidate);
    FillDimensionSpec(m, PhpDimension, PhpSensible);
    FillDimensionSpec(a, DrupalDimension, DrupalLatest);
    FillDimensionSpec(b, CiviDimension, CiviReleaseCandidate);
    assert Get(a, DrupalDimension) == Get(m, DrupalDimension);
    assert Get(a, CiviDimension) == Get(m, CiviDimension) && Get(b, CiviDimension) == Get(m, CiviDimension);
    assert Get(c, PhpDimension) == Get(a, PhpDimension);
    assert Get(c, DrupalDimension) == Get(b, DrupalDimension);
  }

  /** The three defaulting steps leave every other key alone and keep the order of the keys already there. */
  lemma {:induction false} FilledDefaultsKeepRest(m: seq<Member>)
    ensures var r := FillDimension(FillDimension(FillDimension(m, PhpDimension, PhpSensible), DrupalDimension, DrupalLatest), CiviDimension, CiviReleaseCandidate);
      && (forall k :: k != PhpDimension && k != DrupalDimension && k != CiviDimension ==> Get(r, k) == Get(m, k))
      && Keys(r)[..|Keys(m)|] == Keys(m)
  {
    var a := FillDimension(m, PhpDimension, PhpSensible);
    var b := FillDimension(a, DrupalDimension, DrupalLatest);
    var c := FillDimension(b, CiviDimension, CiviReleaseCandidate);
    FillDimensionSpec(m, PhpDimension, PhpSensible);
    FillDimensionSpec(a, DrupalDimension, DrupalLatest);
    FillDimensionSpec(b, CiviDimension, CiviReleaseCandidate);
    assert Keys(c)[..|Keys(m)|] == Keys(b)[..|Keys(a)|][..|Keys(m)|];
  }

  /** With `include` set, the manifest is taken as complete and left unchanged. */
  lemma FilledWithInclude(m: seq<Member>)
    requires IsSet(m, "include")
    ensures Filled(m) == m
  {
  }

  /** A placeholder stored under some key is visible in the encoded matrix. */
  lemma {:induction false} PlaceholderIsEncoded(r: seq<Member>, key: string, t: Token)
    requires Get(r, key) == Some(Placeholder(t))
    ensures Contains(Encode(JObj(r)), TokenText(t))
  {
    var i := GetAt(r, key);
    assert Mentions(Placeholder(t), TokenText(t)) by {
      assert Placeholder(t).items[0] == JStr(TokenText(t));
    }
    assert Mentions(JObj(r), TokenText(t));
    TokenTextShape(t);
    EncodeShowsMentioned(JObj(r), TokenText(t));
  }

  /** A defaulted dimension's placeholder is visible in the encoded matrix, so its resolver will run. */
  lemma {:induction false} FilledPlaceholderIsEncoded(m: seq<Member>, key: string, t: Token)
    requires !IsSet(m, "include") && EmptyAt(m, key)
    requires (key, t) in {(PhpDimension, PhpSensible), (DrupalDimension, DrupalLatest), (CiviDimension, CiviReleaseCandidate)}
    ensures Contains(Encode(JObj(Filled(m))), TokenText(t))
  {
    FilledWithoutInclude(m);
    assert Get(Filled(m), key) == Some(Placeholder(t));
    PlaceholderIsEncoded(Filled(m), key, t);
  }

  // ---------------------------------------------------------------------------
  // Version rules (`getDrupalVersion`, `getCiviVersion`, `getPhpVersion`)

  /**
   * `getDrupalVersion` once the registry has answered `latest`:
   * "^9" when nothing usable came back; for PRIOR, "^(major-1)" after an x.0
   * release and "~major.(minor-1).1" otherwise; any other stage keeps `latest`.
   */
  function DrupalRule(stage: Token, latest: string): (r: Result<string>)
    ensures PhpEmpty(latest) ==> r == Success("^9")
    ensures !PhpEmpty(latest) && stage != DrupalPrior ==> r == Success(latest)
  {
    if PhpEmpty(latest) then Success("^9")
    else if stage == DrupalPrior then
      var parts := Explode(latest, '.');
      if |parts| < 2 then Failure(MalformedVersion(latest))
      else if parts[1] == "0" then
        if IsNumeral(parts[0]) then Success("^" + IntToString(DigitsValue(parts[0]) - 1))
        else Failure(MalformedVersion(latest))
      else if IsNumeral(parts[1]) then Success("~" + parts[0] + "." + IntToString(DigitsValue(parts[1]) - 1) + ".1")
      else Failure(MalformedVersion(latest))
    else Success(latest)
  }

  /**
   * `getCiviVersion` once the registry has answered `latest` (DEV never asks):
   * "dev-master" when nothing usable came back; for RELEASECANDIDATE the next
   * minor's development branch "major.(minor+1).x-dev"; LATEST keeps `latest`.
   */
  function CiviRule(stage: Token, latest: string): (r: Result<string>)
    ensures stage == CiviDev || PhpEmpty(latest) ==> r == Success("dev-master")
    ensures stage == CiviLatest && !PhpEmpty(latest) ==> r == Success(latest)
  {
    if stage == CiviDev || PhpEmpty(latest) then Success("dev-master")
    else if stage == CiviReleaseCandidate then
      var parts := Explode(latest, '.');
      if |parts| >= 2 && IsNumeral(parts[1]) then
        Success(parts[0] + "." + IntToString(DigitsValue(parts[1]) + 1) + ".x-dev")
      else Failure(MalformedVersion(latest))
    else Success(latest)
  }

  /** `getPhpVersion`: the first two dot-separated components of the runtime version. */
  function PhpVersion(runtime: string): string {
    var parts := Explode(runtime, '.');
    parts[0] + "." + (if |parts| > 1 then parts[1] else "")
  }

  /** A released version "major.minor" optionally followed by ".more". */
  function Release(major: nat, minor: nat, tail: string): string {
    NatToString(major) + "." + NatToString(minor) + tail
  }

  /** The first two components of a release are its major and minor numbers. */
  lemma {:induction false} ReleaseComponents(major: nat, minor: nat, tail: string)
    requires tail == [] || tail[0] == '.'
    ensures |Explode(Release(major, minor, tail), '.')| >= 2
    ensures Explode(Release(major, minor, tail), '.')[0] == NatToString(major)
    ensures Explode(Release(major, minor, tail), '.')[1] == NatToString(minor)
  {
    var maj, min := NatToString(major), NatToString(minor);
    assert '.' !in maj && '.' !in min by {
      assert forall i :: 0 <= i < |maj| ==> IsDigit(maj[i]);
      assert forall i :: 0 <= i < |min| ==> IsDigit(min[i]);
    }
    ExplodeFirst(maj, '.', min + tail);
    assert Release(major, minor, tail) == maj + ['.'] + (min + tail);
    if tail == [] {
      ExplodeWhole(min, '.');
      assert min + tail == min;
    } else {
      ExplodeFirst(min, '.', tail[1..]);
      assert min + tail == min + ['.'] + tail[1..];
    }
  }

  lemma NumeralIsZero(n: nat)
    ensures NatToString(n) == "0" <==> n == 0
  {
    if NatToString(n) == "0" {
      assert DigitsValue("0") == 0;
    }
  }

  /** DRUPAL_PRIOR on a release: "^(major-1)" after an x.0 release, else "~major.(minor-1).1". */
  lemma DrupalPriorOfRelease(major: nat, minor: nat, tail: string)
    requires tail == [] || tail[0] == '.'
    ensures DrupalRule(DrupalPrior, Release(major, minor, tail)) ==
      if minor == 0 then Success("^" + IntToString(major - 1))
      else Success("~" + NatToString(major) + "." + NatToString(minor - 1) + ".1")
  {
    ReleaseComponents(major, minor, tail);
    NumeralIsZero(minor);
    assert !PhpEmpty(Release(major, minor, tail)) by {
      assert |Release(major, minor, tail)| >= 3;
    }
  }

  /** CIVI_RELEASECANDIDATE on a release: the next minor's "major.(minor+1).x-dev". */
  lemma CiviReleaseCandidateOfRelease(major: nat, minor: nat, tail: string)
    requires tail == [] || tail[0] == '.'
    ensures CiviRule(CiviReleaseCandidate, Release(major, minor, tail)) ==
      Success(NatToString(major) + "." + NatToString(minor + 1) + ".x-dev")
  {
    ReleaseComponents(major, minor, tail);
    assert !PhpEmpty(Release(major, minor, tail)) by {
      assert |Release(major, minor, tail)| >= 3;
    }
  }

  /** The decimal texts of the numbers the examples use. */
  lemma SmallNumerals()
    ensures NatToString(0) == "0" && NatToString(1) == "1" && NatToString(2) == "2"
    ensures NatToString(5) == "5" && NatToString(7) == "7" && NatToString(8) == "8" && NatToString(9) == "9"
    ensures NatToString(10) == "10" && NatToString(59) == "59" && NatToString(60) == "60" && NatToString(61) == "61"
  {
    DigitChars();
    assert NatToString(10) == NatToString(1) + [DigitChar(0)];
    assert NatToString(59) == NatToString(5) + [DigitChar(9)];
    assert NatToString(60) == NatToString(6) + [DigitChar(0)];
    assert NatToString(61) == NatToString(6) + [DigitChar(1)];
  }

  /** The example in the code comments: 9.2.4 gives ~9.1.1. */
  lemma DrupalPriorMinorExample()
    ensures DrupalRule(DrupalPrior, "9.2.4") == Success("~9.1.1")
  {
    SmallNumerals();
    assert Release(9, 2, ".4") == "9.2.4";
    DrupalPriorOfRelease(9, 2, ".4");
    assert "~" + "9" + "." + "1" + ".1" == "~9.1.1";
  }

  /** The example in the code comments: 10.0.0 gives ^9. */
  lemma DrupalPriorMajorExample()
    ensures DrupalRule(DrupalPrior, "10.0.0") == Success("^9")
  {
    SmallNumerals();
    assert Release(10, 0, ".0") == "10.0.0";
    DrupalPriorOfRelease(10, 0, ".0");
    assert "^" + "9" == "^9";
  }

  /** The default civicrm dimension against registry version 5.60.0 gives 5.61.x-dev. */
  lemma CiviReleaseCandidateExample()
    ensures CiviRule(CiviReleaseCandidate, "5.60.0") == Success("5.61.x-dev")
  {
    SmallNumerals();
    assert Release(5, 60, ".0") == "5.60.0";
    CiviReleaseCandidateOfRelease(5, 60, ".0");
    assert "5" + "." + "61" + ".x-dev" == "5.61.x-dev";
  }

  /** The runtime "a.b.c" gives "a.b". */
  lemma PhpVersionMajorMinor(a: string, b: string, tail: string)
    requires '.' !in a && '.' !in b
    requires tail == [] || tail[0] == '.'
    ensures PhpVersion(a + "." + b + tail) == a + "." + b
  {
    ExplodeFirst(a, '.', b + tail);
    assert a + "." + b + tail == a + ['.'] + (b + tail);
    if tail == [] {
      ExplodeWhole(b, '.');
      assert b + tail == b;
    } else {
      ExplodeFirst(b, '.', tail[1..]);
      assert b + tail == b + ['.'] + tail[1..];
    }
  }

  // ---------------------------------------------------------------------------
  // Substitution (`replaceCarrotVars`) as a function of the cache

  /** A result together with the cache it leaves behind. */
  datatype Outcome = Outcome(result: Result<string>, cache: Cache)

  function DrupalVersion(c: Cache, stage: Token, world: World): Outcome {
    var l := Latest(c, DrupalPackage, PackageUrl(DrupalPackage), world);
    Outcome(DrupalRule(stage, l.version), l.cache)
  }

  /** CIVI_DEV is answered without asking the registry; the other stages ask it about CiviCRM only. */
  function CiviVersion(c: Cache, stage: Token, world: World): (r: Outcome)
    ensures stage == CiviDev ==> r == Outcome(Success("dev-master"), c)
    ensures stage != CiviDev ==> r.cache == Latest(c, CiviPackage, PackageUrl(CiviPackage), world).cache
  {
    if stage == CiviDev then Outcome(Success("dev-master"), c)
    else
      var l := Latest(c, CiviPackage, PackageUrl(CiviPackage), world);
      Outcome(CiviRule(stage, l.version), l.cache)
  }

  /** The value each placeholder is replaced by, and what asking for it does to the cache. */
  function Resolve(t: Token, c: Cache, world: World): Outcome {
    match t
    case DrupalLatest => DrupalVersion(c, DrupalLatest, world)
    case DrupalPrior => DrupalVersion(c, DrupalPrior, world)
    case CiviDev => CiviVersion(c, CiviDev, world)
    case CiviReleaseCandidate => CiviVersion(c, CiviReleaseCandidate, world)
    case CiviLatest => CiviVersion(c, CiviLatest, world)
    case PhpSensible => Outcome(Success(PhpVersion(world.phpVersion)), c)
  }

  /** The order in which `replaceCarrotVars` tries the placeholders. */
  const Order := [DrupalLatest, DrupalPrior, CiviDev, CiviReleaseCandidate, CiviLatest, PhpSensible]

  /** One block of `replaceCarrotVars`: resolve and replace only if the token's text is present. */
  function Step(s: string, c: Cache, world: World, t: Token): Outcome {
    if !Contains(s, TokenText(t)) then Outcome(Success(s), c)
    else
      var o := Resolve(t, c, world);
      if o.result.Failure? then o
      else Outcome(Success(ReplaceAll(s, TokenText(t), o.result.value)), o.cache)
  }

  function Substitute(s: string, c: Cache, world: World, tokens: seq<Token>): Outcome
    decreases |tokens|
  {
    if tokens == [] then Outcome(Success(s), c)
    else
      var o := Step(s, c, world, tokens[0]);
      if o.result.Failure? then o
      else Substitute(o.result.value, o.cache, world, tokens[1..])
  }

  /** Once the first block has run, substitution goes on from its outcome, or stops at its failure. */
  lemma SubstituteStep(s: string, c: Cache, world: World, tokens: seq<Token>, r: Result<string>, c': Cache)
    requires tokens != [] && Outcome(r, c') == Step(s, c, world, tokens[0])
    ensures r.Failure? ==> Substitute(s, c, world, tokens) == Outcome(r, c')
    ensures r.Success? ==> Substitute(s, c, world, tokens) == Substitute(r.value, c', world, tokens[1..])
  {
  }

  /** A text with none of the tokens' texts comes back unchanged, and no resolver runs. */
  lemma {:induction false} SubstituteWithoutPlaceholders(s: string, c: Cache, world: World, tokens: seq<Token>)
    requires forall t :: t in tokens ==> !Contains(s, TokenText(t))
    ensures Substitute(s, c, world, tokens) == Outcome(Success(s), c)
  {
    if tokens != [] {
      assert tokens[0] in tokens;
      assert Step(s, c, world, tokens[0]) == Outcome(Success(s), c);
      SubstituteWithoutPlaceholders(s, c, world, tokens[1..]);
    }
  }

  /** `replaceCarrotVars` on a text without placeholders: unchanged, and the registry is never asked. */
  lemma ReplaceWithoutPlaceholders(s: string, c: Cache, world: World)
    requires forall t: Token :: !Contains(s, TokenText(t))
    ensures Substitute(s, c, world, Order) == Outcome(Success(s), c)
  {
    SubstituteWithoutPlaceholders(s, c, world, Order);
  }

  /**
   * A present token is replaced everywhere: once its value is non-empty and
   * shares no character with the token text, no occurrence of the token is left.
   */
  lemma StepClearsToken(s: string, c: Cache, world: World, t: Token)
    requires Resolve(t, c, world).result.Success?
    requires var v := Resolve(t, c, world).result.value;
      v != [] && forall ch :: ch in v ==> ch !in TokenText(t)
    ensures Step(s, c, world, t).result.Success?
    ensures !Contains(Step(s, c, world, t).result.value, TokenText(t))
  {
    TokenTextShape(t);
    if Contains(s, TokenText(t)) {
      ReplaceLeavesNoOccurrence(s, TokenText(t), Resolve(t, c, world).result.value);
    }
  }

  /** What `build` computes: strip ".git", fetch the manifest, default, encode, substitute. */
  function BuildSpec(repoUrl: string, commit: string, c: Cache, world: World): Outcome {
    var matrix := ManifestMatrix(world.manifestAt(ManifestUrl(RemoveDotGit(repoUrl), commit)));
    if matrix.Failure? then Outcome(Failure(matrix.error), c)
    else Substitute(Encode(JObj(Filled(matrix.value))), c, world, Order)
  }

  /** A scalar `singlePR` ends the build in `fillMatrix`'s type check, before any registry lookup. */
  lemma ScalarManifestFails(repoUrl: string, commit: string, c: Cache, world: World)
    requires var v := world.manifestAt(ManifestUrl(RemoveDotGit(repoUrl), commit));
      v.Some? && (v.value.JBool? || v.value.JInt? || v.value.JStr?)
    ensures BuildSpec(repoUrl, commit, c, world) == Outcome(Failure(ArgumentType("matrix")), c)
  {
  }

  /**
   * A manifest that cannot be read, or has no `singlePR`, builds the matrix of
   * the three placeholders: php-versions, drupal and civicrm, in that order.
   */
  lemma MissingManifestIsDefaults(repoUrl: string, commit: string, c: Cache, world: World)
    requires world.manifestAt(ManifestUrl(RemoveDotGit(repoUrl), commit)).None?
    ensures BuildSpec(repoUrl, commit, c, world) == Substitute(Encode(JObj(DefaultMatrix)), c, world, Order)
  {
    FilledOfEmpty();
  }

  // ---------------------------------------------------------------------------
  // The builder

  class MatrixBuilder {
    const repoUrl: string
    const commit: string
    const world: World
    /** `self::$packagist`, one cache per builder. */
    var packagist: map<string, PackageEntry>
    /** Registry URLs fetched so far, in order. */
    ghost var fetched: seq<string>

    ghost function State(): Cache
      reads this
    {
      Cache(packagist, fetched)
    }

    constructor (repoUrl: string, commit: string, world: World)
      ensures this.repoUrl == repoUrl && this.commit == commit && this.world == world
      ensures State() == EmptyCache
    {
      this.repoUrl := repoUrl;
      this.commit := commit;
      this.world := world;
      packagist := map[];
      fetched := [];
    }

    /** `build` */
    method Build() returns (r: Result<string>)
      modifies this
      ensures Outcome(r, State()) == BuildSpec(repoUrl, commit, old(State()), world)
    {
      var url := RemoveDotGit(repoUrl);
      var manifest := ManifestMatrix(world.manifestAt(ManifestUrl(url, commit)));
      if manifest.Failure? {
        return Failure(manifest.error);
      }
      var matrix := FillMatrix(manifest.value);
      r := ReplaceCarrotVars(Encode(JObj(matrix)));
    }

    /** `fillMatrix` */
    static method FillMatrix(matrix: seq<Member>) returns (r: seq<Member>)
      ensures r == Filled(matrix)
    {
      r := matrix;
      if !IsSet(r, "include") {
        if EmptyAt(r, PhpDimension) {
          r := Put(r, PhpDimension, Placeholder(PhpSensible));
        }
        if EmptyAt(r, DrupalDimension) {
          r := Put(r, DrupalDimension, Placeholder(DrupalLatest));
        }
        if EmptyAt(r, CiviDimension) {
          r := Put(r, CiviDimension, Placeholder(CiviReleaseCandidate));
        }
      }
    }

    /** `replaceCarrotVars` */
    method ReplaceCarrotVars(s: string) returns (r: Result<string>)
      modifies this
      ensures Outcome(r, State()) == Substitute(s, old(State()), world, Order)
    {
      var text := s;
      ghost var before := State();
      r := ReplaceToken(text, DrupalLatest);
      SubstituteStep(text, before, world, Order[0..], r, State());
      if r.Failure? { return; }
      text, before := r.value, State();
      r := ReplaceToken(text, DrupalPrior);
      SubstituteStep(text, before, world, Order[1..], r, State());
      if r.Failure? { return; }
      text, before := r.value, State();
      r := ReplaceToken(text, CiviDev);
      SubstituteStep(text, before, world, Order[2..], r, State());
      if r.Failure? { return; }
      text, before := r.value, State();
      r := ReplaceToken(text, CiviReleaseCandidate);
      SubstituteStep(text, before, world, Order[3..], r, State());
      if r.Failure? { return; }
      text, before := r.value, State();
      r := ReplaceToken(text, CiviLatest);
      SubstituteStep(text, before, world, Order[4..], r, State());
      if r.Failure? { return; }
      text, before := r.value, State();
      r := ReplaceToken(text, PhpSensible);
      SubstituteStep(text, before, world, Order[5..], r, State());
    }

    /** One block of `replaceCarrotVars`: resolve and replace only when the token's text occurs. */
    method ReplaceToken(text: string, t: Token) returns (r: Result<string>)
      modifies this
      ensures Outcome(r, State()) == Step(text, old(State()), world, t)
    {
      if !Contains(text, TokenText(t)) {
        return Success(text);
      }
      var v: Result<string>;
      match t {
        case DrupalLatest => v := GetDrupalVersion(DrupalLatest);
        case DrupalPrior => v := GetDrupalVersion(DrupalPrior);
        case CiviDev => v := GetCiviVersion(CiviDev);
        case CiviReleaseCandidate => v := GetCiviVersion(CiviReleaseCandidate);
        case CiviLatest => v := GetCiviVersion(CiviLatest);
        case PhpSensible => v := Success(PhpVersion(world.phpVersion));
      }
      if v.Failure? {
        return v;
      }
      r := Success(ReplaceAll(text, TokenText(t), v.value));
    }

    /** `getDrupalVersion` */
    method GetDrupalVersion(stage: Token) returns (r: Result<string>)
      modifies this
      ensures Outcome(r, State()) == DrupalVersion(old(State()), stage, world)
    {
      var version := GetLatestFromPackagist(DrupalPackage);
      r := DrupalRule(stage, version);
    }

    /** `getCiviVersion` */
    method GetCiviVersion(stage: Token) returns (r: Result<string>)
      modifies this
      ensures Outcome(r, State()) == CiviVersion(old(State()), stage, world)
    {
      if stage == CiviDev {
        return Success("dev-master");
      }
      var version := GetLatestFromPackagist(CiviPackage);
      r := CiviRule(stage, version);
    }

    /** `getLatestFromPackagist` */
    method GetLatestFromPackagist(package: string) returns (version: string)
      modifies this
      ensures Lookup(version, State()) == Latest(old(State()), package, PackageUrl(package), world)
    {
      if package !in packagist || packagist[package].IsEmpty() {
        var url := PackageUrl(package);
        packagist := packagist[package := FirstEntry(world.registryAt(url), package)];
        fetched := fetched + [url];
      }
      version := packagist[package].version.GetOr("");
    }
  }
}
