/**
 * The older matrix builder (src/Matrix/Builder.php). It declares the same class
 * name as the canonical builder but is never autoloaded under it, so it is a
 * module of its own here. It differs from the canonical builder in five ways:
 * it always defaults the dimensions, it always runs every resolver, DRUPAL_LATEST
 * becomes "~version", the release candidate is the previous minor, and the
 * sensible PHP version is the newest one the cached registry records require
 * (never below 7.0).
 */
module MatrixBuilderV1 {
  import opened Wrappers
  import opened Text
  import opened Json
  import opened Placeholders
  import opened Remote
  import MB = MatrixBuilder

  /** The tokens the legacy builder knows: every one except DRUPAL_PRIOR. */
  type LegacyToken = t: Token | t != DrupalPrior witness DrupalLatest

  // ---------------------------------------------------------------------------
  // Default-filling (`fillMatrix`): no exemption for `include`

  function Filled(m: seq<Member>): seq<Member> {
    var withPhp := MB.FillDimension(m, MB.PhpDimension, PhpSensible);
    var withDrupal := MB.FillDimension(withPhp, MB.DrupalDimension, DrupalLatest);
    MB.FillDimension(withDrupal, MB.CiviDimension, CiviReleaseCandidate)
  }

  /** Each known dimension is defaulted exactly when missing or empty; nothing else changes. */
  lemma {:induction false} FilledDimensions(m: seq<Member>)
    ensures MB.DimensionFilled(m, Filled(m), MB.PhpDimension, PhpSensible)
    ensures MB.DimensionFilled(m, Filled(m), MB.DrupalDimension, DrupalLatest)
    ensures MB.DimensionFilled(m, Filled(m), MB.CiviDimension, CiviReleaseCandidate)
    ensures forall k :: k != MB.PhpDimension && k != MB.DrupalDimension && k != MB.CiviDimension ==> Get(Filled(m), k) == Get(m, k)
    ensures Keys(Filled(m))[..|Keys(m)|] == Keys(m)
  {
    MB.FilledDefaults(m);
    MB.FilledDefaultsKeepRest(m);
  }

  /** Without `include` both builders default the same way. */
  lemma FilledAgreesWithoutInclude(m: seq<Member>)
    requires !IsSet(m, "include")
    ensures Filled(m) == MB.Filled(m)
  {
  }

  /** With `include` set, a missing dimension is still defaulted here, where the canonical builder leaves the manifest alone. */
  lemma FilledDespiteInclude(m: seq<Member>, key: string, t: Token)
    requires IsSet(m, "include") && EmptyAt(m, key)
    requires (key, t) in {(MB.PhpDimension, PhpSensible), (MB.DrupalDimension, DrupalLatest), (MB.CiviDimension, CiviReleaseCandidate)}
    ensures Get(Filled(m), key) == Some(MB.Placeholder(t))
    ensures Filled(m) != MB.Filled(m)
  {
    MB.FilledDefaults(m);
    MB.FilledWithInclude(m);
    assert !Empty(MB.Placeholder(t));
    assert Get(m, key) != Get(Filled(m), key);
  }

  // ---------------------------------------------------------------------------
  // Version rules (`getDrupalVersion`, `getCiviVersion`)

  /** `getDrupalVersion`: "^9" when the registry gave nothing usable, otherwise "~" and the version. */
  function DrupalRule(latest: string): (r: string)
    ensures PhpEmpty(latest) ==> r == "^9"
    ensures !PhpEmpty(latest) ==> |r| == |latest| + 1 && r[0] == '~' && r[1..] == latest
  {
    if PhpEmpty(latest) then "^9" else "~" + latest
  }

  /** Where the canonical builder answers the version itself, this one prefixes "~". */
  lemma DrupalRuleDiffers(latest: string)
    requires !PhpEmpty(latest)
    ensures MB.DrupalRule(DrupalLatest, latest).Success?
    ensures DrupalRule(latest) == "~" + MB.DrupalRule(DrupalLatest, latest).value
  {
  }

  /**
   * `getCiviVersion` once the registry has answered `latest` (DEV never asks):
   * "dev-master" when nothing usable came back; for RELEASECANDIDATE
   * "major.(minor-1).x-dev"; LATEST keeps `latest`.
   */
  function CiviRule(stage: LegacyToken, latest: string): (r: Result<string>)
    ensures stage == CiviDev || PhpEmpty(latest) ==> r == Success("dev-master")
    ensures stage == CiviLatest && !PhpEmpty(latest) ==> r == Success(latest)
  {
    if stage == CiviDev || PhpEmpty(latest) then Success("dev-master")
    else if stage == CiviReleaseCandidate then
      var parts := Explode(latest, '.');
      if |parts| >= 2 && IsNumeral(parts[1]) then
        Success(parts[0] + "." + IntToString(DigitsValue(parts[1]) - 1) + ".x-dev")
      else Failure(MalformedVersion(latest))
    else Success(latest)
  }

  /** RELEASECANDIDATE on a release: the previous minor's "major.(minor-1).x-dev". */
  lemma ReleaseCandidateOfRelease(major: nat, minor: nat, tail: string)
    requires tail == [] || tail[0] == '.'
    ensures CiviRule(CiviReleaseCandidate, MB.Release(major, minor, tail)) ==
      Success(NatToString(major) + "." + IntToString(minor - 1) + ".x-dev")
  {
    MB.ReleaseComponents(major, minor, tail);
    assert !PhpEmpty(MB.Release(major, minor, tail)) by {
      assert |MB.Release(major, minor, tail)| >= 3;
    }
  }

  /**
   * On a release both builders keep the major, but the canonical builder's
   * release candidate is the next minor and this one's the previous minor.
   */
  lemma ReleaseCandidateRulesDiffer(major: nat, minor: nat, tail: string)
    requires tail == [] || tail[0] == '.'
    ensures CiviRule(CiviReleaseCandidate, MB.Release(major, minor, tail)) ==
      Success(NatToString(major) + "." + IntToString(minor - 1) + ".x-dev")
    ensures MB.CiviRule(CiviReleaseCandidate, MB.Release(major, minor, tail)) ==
      Success(NatToString(major) + "." + IntToString(minor + 1) + ".x-dev")
  {
    ReleaseCandidateOfRelease(major, minor, tail);
    MB.CiviReleaseCandidateOfRelease(major, minor, tail);
  }

  /** Registry version 5.60.0 gives 5.59.x-dev here. */
  lemma ReleaseCandidateExample()
    ensures CiviRule(CiviReleaseCandidate, "5.60.0") == Success("5.59.x-dev")
  {
    MB.SmallNumerals();
    assert MB.Release(5, 60, ".0") == "5.60.0";
    ReleaseCandidateOfRelease(5, 60, ".0");
    assert "5" + "." + "59" + ".x-dev" == "5.59.x-dev";
  }

  /** An x.0 release has a release candidate with minor -1. */
  lemma {:induction false} ReleaseCandidateOfFirstMinor(major: nat, tail: string)
    requires tail == [] || tail[0] == '.'
    ensures CiviRule(CiviReleaseCandidate, MB.Release(major, 0, tail)) ==
      Success(NatToString(major) + ".-1.x-dev")
  {
    ReleaseCandidateOfRelease(major, 0, tail);
    MinusOneText(NatToString(major));
  }

  lemma MinusOneText(m: string)
    ensures m + "." + IntToString(0 - 1) + ".x-dev" == m + ".-1.x-dev"
  {
    MB.SmallNumerals();
    assert IntToString(0 - 1) == "-1";
  }

  // ---------------------------------------------------------------------------
  // The sensible PHP version (`getPhpVersion`)

  /** A PHP release as major.minor, the part of a version `getPhpVersion` compares. */
  datatype PhpRelease = PhpRelease(major: nat, minor: nat)

  /** `'7.0'`, where the search for the highest version starts. */
  const Floor := PhpRelease(7, 0)

  /** `version_compare($a, $b, '>')` on major.minor pairs. */
  predicate Newer(a: PhpRelease, b: PhpRelease) {
    a.major > b.major || (a.major == b.major && a.minor > b.minor)
  }

  lemma NewerTotal(a: PhpRelease, b: PhpRelease)
    ensures a == b || Newer(a, b) || Newer(b, a)
    ensures !(Newer(a, b) && Newer(b, a))
  {
  }

  /** The text of a release, as `getPhpVersion` returns it. */
  function ReleaseText(v: PhpRelease): string {
    NatToString(v.major) + "." + NatToString(v.minor)
  }

  /** The text names the release: major and minor can be read back from it. */
  lemma ReleaseTextComponents(v: PhpRelease)
    ensures Explode(ReleaseText(v), '.') == [NatToString(v.major), NatToString(v.minor)]
    ensures DigitsValue(NatToString(v.major)) == v.major && DigitsValue(NatToString(v.minor)) == v.minor
  {
    MB.ReleaseComponents(v.major, v.minor, []);
    assert ReleaseText(v) == MB.Release(v.major, v.minor, []);
    var min := NatToString(v.minor);
    assert '.' !in min by {
      assert forall i :: 0 <= i < |min| ==> IsDigit(min[i]);
    }
    assert '.' !in NatToString(v.major) by {
      assert forall i :: 0 <= i < |NatToString(v.major)| ==> IsDigit(NatToString(v.major)[i]);
    }
    ExplodeFirst(NatToString(v.major), '.', min);
    ExplodeWhole(min, '.');
    assert ReleaseText(v) == NatToString(v.major) + ['.'] + min;
  }

  /** `preg_replace('/[^\d\.]/', '', $s)`: keep only digits and dots. */
  function KeepVersionChars(s: string): (r: string)
    ensures forall i :: 0 <= i < |r| ==> IsDigit(r[i]) || r[i] == '.'
    ensures forall c :: c in s && (IsDigit(c) || c == '.') ==> c in r
    ensures forall c :: c in r ==> c in s
  {
    if s == [] then []
    else KeptChar(s[0]) + KeepVersionChars(s[1..])
  }

  /** What the filter makes of one character: the character itself when it is a digit or a dot, otherwise nothing. */
  function KeptChar(c: char): string {
    if IsDigit(c) || c == '.' then [c] else []
  }

  /** One character is kept exactly when it is a digit or a dot. */
  lemma KeepVersionCharsOfChar(c: char)
    ensures KeepVersionChars([c]) == KeptChar(c)
  {
    assert [c][1..] == [];
  }

  /**
   * The kept characters of two texts follow each other in order: with
   * `KeepVersionCharsOfChar`, the function is the filter of its input, so
   * nothing is reordered, repeated or dropped besides the other characters.
   */
  lemma {:induction false} KeepVersionCharsAppend(a: string, b: string)
    ensures KeepVersionChars(a + b) == KeepVersionChars(a) + KeepVersionChars(b)
  {
    if a == [] {
      assert a + b == b;
    } else {
      assert (a + b)[0] == a[0] && (a + b)[1..] == a[1..] + b;
      KeepVersionCharsAppend(a[1..], b);
      calc {
        KeepVersionChars(a + b);
        KeptChar(a[0]) + KeepVersionChars(a[1..] + b);
        KeptChar(a[0]) + KeepVersionChars(a[1..]) + KeepVersionChars(b);
        KeepVersionChars(a) + KeepVersionChars(b);
      }
    }
  }

  /** A text of digits and dots is kept whole. */
  lemma {:induction false} KeepVersionCharsOfVersion(s: string)
    requires forall i :: 0 <= i < |s| ==> IsDigit(s[i]) || s[i] == '.'
    ensures KeepVersionChars(s) == s
  {
    if s != [] {
      KeepVersionCharsOfVersion(s[1..]);
      assert s == [s[0]] + s[1..];
    }
  }

  /**
   * The major.minor a `require.php` constraint names, as the comments in
   * `getPhpVersion` describe it: the first alternative before any `|`, its first
   * word, digits and dots only, the first two components, ".0" when there is no
   * minor. A constraint that does not come down to two numerals names nothing.
   */
  function ConstraintRelease(constraint: string): Option<PhpRelease> {
    var first := Explode(constraint, '|')[0];
    var word := Explode(first, ' ')[0];
    var parts := Explode(KeepVersionChars(word), '.');
    var minor := if |parts| > 1 then parts[1] else "0";
    if IsNumeral(parts[0]) && IsNumeral(minor) then Some(PhpRelease(DigitsValue(parts[0]), DigitsValue(minor)))
    else None
  }

  /** Only the first alternative of a disjunction counts. */
  lemma ConstraintFirstAlternative(a: string, b: string)
    requires '|' !in a
    ensures ConstraintRelease(a + "|" + b) == ConstraintRelease(a)
  {
    ExplodeFirst(a, '|', b);
    ExplodeWhole(a, '|');
    assert a + "|" + b == a + ['|'] + b;
  }

  /** Only the first word of a conjunction counts. */
  lemma ConstraintFirstWord(a: string, b: string)
    requires '|' !in a && '|' !in b && ' ' !in a
    ensures ConstraintRelease(a + " " + b) == ConstraintRelease(a)
  {
    var s := a + " " + b;
    assert '|' !in s by {
      forall i | 0 <= i < |s| ensures s[i] != '|' {
        if i < |a| { assert s[i] == a[i]; } else if i > |a| { assert s[i] == b[i - |a| - 1]; }
      }
    }
    ExplodeWhole(s, '|');
    ExplodeWhole(a, '|');
    ExplodeFirst(a, ' ', b);
    ExplodeWhole(a, ' ');
    assert s == a + [' '] + b;
  }

  /** An operator in front of a release does not change it, and a patch level is ignored. */
  lemma {:induction false} ConstraintOfRelease(op: string, v: PhpRelease, tail: string)
    requires forall i :: 0 <= i < |op| ==> !IsDigit(op[i]) && op[i] != '.' && op[i] != '|' && op[i] != ' '
    requires tail == [] || tail[0] == '.'
    requires forall i :: 0 <= i < |tail| ==> IsDigit(tail[i]) || tail[i] == '.'
    ensures ConstraintRelease(op + ReleaseText(v) + tail) == Some(v)
  {
    var text := MB.Release(v.major, v.minor, tail);
    assert op + ReleaseText(v) + tail == op + text;
    var s := op + text;
    ReleaseIsVersionChars(v.major, v.minor, tail);
    assert '|' !in s && ' ' !in s by {
      forall i | 0 <= i < |s| ensures s[i] != '|' && s[i] != ' ' {
        if i >= |op| { assert s[i] == text[i - |op|]; }
      }
    }
    ExplodeWhole(s, '|');
    ExplodeWhole(s, ' ');
    DropOperator(op, text);
    KeepVersionCharsOfVersion(text);
    MB.ReleaseComponents(v.major, v.minor, tail);
    var parts := Explode(KeepVersionChars(s), '.');
    assert parts == Explode(text, '.');
    assert parts[0] == NatToString(v.major) && parts[1] == NatToString(v.minor);
  }

  /** A constraint naming only a major version stands for its ".0" release. */
  lemma {:induction false} ConstraintOfMajor(op: string, major: nat)
    requires forall i :: 0 <= i < |op| ==> !IsDigit(op[i]) && op[i] != '.' && op[i] != '|' && op[i] != ' '
    ensures ConstraintRelease(op + NatToString(major)) == Some(PhpRelease(major, 0))
  {
    var maj := NatToString(major);
    var s := op + maj;
    assert '|' !in s && ' ' !in s by {
      forall i | 0 <= i < |s| ensures s[i] != '|' && s[i] != ' ' {
        if i >= |op| { assert s[i] == maj[i - |op|] && IsDigit(maj[i - |op|]); }
      }
    }
    ExplodeWhole(s, '|');
    ExplodeWhole(s, ' ');
    assert Explode(Explode(s, '|')[0], ' ')[0] == s;
    DropOperator(op, maj);
    KeepVersionCharsOfVersion(maj);
    assert KeepVersionChars(s) == maj;
    assert '.' !in maj by {
      forall i | 0 <= i < |maj| ensures maj[i] != '.' {
        assert IsDigit(maj[i]);
      }
    }
    ExplodeWhole(maj, '.');
    assert Explode(KeepVersionChars(s), '.') == [maj];
    assert IsNumeral("0") && DigitsValue("0") == 0;
  }

  /** A release text is made of digits and dots. */
  lemma {:induction false} ReleaseIsVersionChars(major: nat, minor: nat, tail: string)
    requires forall i :: 0 <= i < |tail| ==> IsDigit(tail[i]) || tail[i] == '.'
    ensures var text := MB.Release(major, minor, tail);
      forall i :: 0 <= i < |text| ==> IsDigit(text[i]) || text[i] == '.'
  {
    var text := MB.Release(major, minor, tail);
    var maj, min := NatToString(major), NatToString(minor);
    assert text == maj + "." + min + tail;
    forall i | 0 <= i < |text| ensures IsDigit(text[i]) || text[i] == '.' {
      if i < |maj| { assert text[i] == maj[i]; }
      else if i == |maj| { }
      else if i < |maj| + 1 + |min| { assert text[i] == min[i - |maj| - 1]; }
      else { assert text[i] == tail[i - |maj| - 1 - |min|]; }
    }
  }

  lemma {:induction false} DropOperator(op: string, s: string)
    requires forall i :: 0 <= i < |op| ==> !IsDigit(op[i]) && op[i] != '.'
    ensures KeepVersionChars(op + s) == KeepVersionChars(s)
  {
    if op != [] {
      DropOperator(op[1..], s);
      var whole := op + s;
      assert whole[0] == op[0] && !IsDigit(whole[0]) && whole[0] != '.';
      assert whole[1..] == op[1..] + s;
      assert KeepVersionChars(whole) == [] + KeepVersionChars(whole[1..]);
    } else {
      assert op + s == s;
    }
  }

  /** The release a cached record's `require.php` asks for; records without one, or with an empty one, are skipped. */
  function EntryRelease(e: PackageEntry): Option<PhpRelease> {
    if e.requirePhp.None? || PhpEmpty(e.requirePhp.value) then None
    else ConstraintRelease(e.requirePhp.value)
  }

  /** One iteration of the loop: keep the newer of `best` and the record's release. */
  function Later(best: PhpRelease, e: PackageEntry): PhpRelease {
    match EntryRelease(e)
    case Some(v) => if Newer(v, best) then v else best
    case None => best
  }

  /**
   * `best` is the highest of 7.0 and the releases asked for by the records of
   * the packages in `keys`: no lower than any of them and equal to one of them.
   */
  predicate IsHighest(best: PhpRelease, m: map<string, PackageEntry>, keys: set<string>)
    requires keys <= m.Keys
  {
    && !Newer(Floor, best)
    && (forall p :: p in keys && EntryRelease(m[p]).Some? ==> !Newer(EntryRelease(m[p]).value, best))
    && (best == Floor || exists p :: p in keys && EntryRelease(m[p]) == Some(best))
  }

  /** There is only one highest release. */
  lemma HighestUnique(a: PhpRelease, b: PhpRelease, m: map<string, PackageEntry>, keys: set<string>)
    requires keys <= m.Keys
    requires IsHighest(a, m, keys) && IsHighest(b, m, keys)
    ensures a == b
  {
    NewerTotal(a, b);
    if a != Floor {
      var p :| p in keys && EntryRelease(m[p]) == Some(a);
    }
    if b != Floor {
      var p :| p in keys && EntryRelease(m[p]) == Some(b);
    }
  }

  /** Looking at one more record keeps `best` the highest. */
  lemma HighestStep(best: PhpRelease, m: map<string, PackageEntry>, keys: set<string>, p: string)
    requires keys <= m.Keys && p in m
    requires IsHighest(best, m, keys)
    ensures IsHighest(Later(best, m[p]), m, keys + {p})
  {
    var next := Later(best, m[p]);
    forall q | q in keys + {p} && EntryRelease(m[q]).Some?
      ensures !Newer(EntryRelease(m[q]).value, next)
    {
      NewerTotal(EntryRelease(m[q]).value, next);
      NewerTotal(best, next);
    }
    if next != best {
      assert p in keys + {p} && EntryRelease(m[p]) == Some(next);
    } else if best != Floor {
      var q :| q in keys && EntryRelease(m[q]) == Some(best);
      assert q in keys + {p};
    }
  }

  /** The highest release over the records of `keys` (the order they are visited in does not matter). */
  ghost function Highest(m: map<string, PackageEntry>, keys: set<string>): (r: PhpRelease)
    requires keys <= m.Keys
    ensures IsHighest(r, m, keys)
    decreases keys
  {
    if keys == {} then Floor
    else
      var p :| p in keys;
      var rest := Highest(m, keys - {p});
      HighestStep(rest, m, keys - {p}, p);
      assert keys - {p} + {p} == keys;
      Later(rest, m[p])
  }

  /** What `getPhpVersion` returns for a cache. */
  ghost function SensiblePhp(entries: map<string, PackageEntry>): string {
    ReleaseText(Highest(entries, entries.Keys))
  }

  // ---------------------------------------------------------------------------
  // Substitution (`replaceCarrotVars`) as a function of the cache

  function DrupalVersion(c: Cache, world: World): MB.Outcome {
    var l := Latest(c, MB.DrupalPackage, MB.PackageUrl(MB.DrupalPackage), world);
    MB.Outcome(Success(DrupalRule(l.version)), l.cache)
  }

  function CiviVersion(c: Cache, stage: LegacyToken, world: World): MB.Outcome {
    if stage == CiviDev then MB.Outcome(Success("dev-master"), c)
    else
      var l := Latest(c, MB.CiviPackage, MB.PackageUrl(MB.CiviPackage), world);
      MB.Outcome(CiviRule(stage, l.version), l.cache)
  }

  /** The value each placeholder is replaced by, and what asking for it does to the cache. */
  ghost function Resolve(t: LegacyToken, c: Cache, world: World): MB.Outcome {
    if t == DrupalLatest then DrupalVersion(c, world)
    else if t == PhpSensible then MB.Outcome(Success(SensiblePhp(c.entries)), c)
    else CiviVersion(c, t, world)
  }

  /** The order of the five replacements; PHP_SENSIBLE comes last because it reads the cache the others fill. */
  const Order: seq<LegacyToken> := [DrupalLatest, CiviDev, CiviReleaseCandidate, CiviLatest, PhpSensible]

  /**
   * One line of `replaceCarrotVars`: the resolver runs whether or not the token
   * occurs. Only the release-candidate arithmetic can fail.
   */
  ghost function Step(s: string, c: Cache, world: World, t: LegacyToken): (r: MB.Outcome)
    ensures t != CiviReleaseCandidate ==> r.result.Success?
  {
    var o := Resolve(t, c, world);
    if o.result.Failure? then o
    else MB.Outcome(Success(ReplaceAll(s, TokenText(t), o.result.value)), o.cache)
  }

  ghost function Substitute(s: string, c: Cache, world: World, tokens: seq<LegacyToken>): MB.Outcome
    decreases |tokens|
  {
    if tokens == [] then MB.Outcome(Success(s), c)
    else
      var o := Step(s, c, world, tokens[0]);
      if o.result.Failure? then o
      else Substitute(o.result.value, o.cache, world, tokens[1..])
  }

  /** Once the first line has run, substitution goes on from its outcome, or stops at its failure. */
  lemma SubstituteStep(s: string, c: Cache, world: World, tokens: seq<LegacyToken>, r: Result<string>, c': Cache)
    requires tokens != [] && MB.Outcome(r, c') == Step(s, c, world, tokens[0])
    ensures r.Failure? ==> Substitute(s, c, world, tokens) == MB.Outcome(r, c')
    ensures r.Success? ==> Substitute(s, c, world, tokens) == Substitute(r.value, c', world, tokens[1..])
  {
  }

  /**
   * The lines of `replaceCarrotVars`, one after the other, each from the text
   * and cache the previous one left: the five give `Substitute`, and the run
   * stops early only at a failed release candidate.
   */
  lemma SubstituteLines(s: string, c: Cache, world: World, o1: MB.Outcome, o2: MB.Outcome, o3: MB.Outcome, o4: MB.Outcome, o5: MB.Outcome)
    requires o1 == Step(s, c, world, DrupalLatest)
    requires o2 == Step(o1.result.value, o1.cache, world, CiviDev)
    requires o3 == Step(o2.result.value, o2.cache, world, CiviReleaseCandidate)
    requires o3.result.Success? ==> o4 == Step(o3.result.value, o3.cache, world, CiviLatest)
    requires o3.result.Success? ==> o5 == Step(o4.result.value, o4.cache, world, PhpSensible)
    ensures Substitute(s, c, world, Order) == if o3.result.Failure? then o3 else o5
  {
    SubstituteStep(s, c, world, Order, o1.result, o1.cache);
    SubstituteStep(o1.result.value, o1.cache, world, Order[1..], o2.result, o2.cache);
    SubstituteStep(o2.result.value, o2.cache, world, Order[2..], o3.result, o3.cache);
    if o3.result.Success? {
      SubstituteLastLines(o3, world, o4, o5);
    }
  }

  /** CIVI_LATEST and PHP_SENSIBLE, the two lines after the release candidate, run to the end. */
  lemma SubstituteLastLines(o3: MB.Outcome, world: World, o4: MB.Outcome, o5: MB.Outcome)
    requires o3.result.Success?
    requires o4 == Step(o3.result.value, o3.cache, world, CiviLatest)
    requires o5 == Step(o4.result.value, o4.cache, world, PhpSensible)
    ensures Substitute(o3.result.value, o3.cache, world, Order[3..]) == o5
  {
    SubstituteStep(o3.result.value, o3.cache, world, Order[3..], o4.result, o4.cache);
    SubstituteStep(o4.result.value, o4.cache, world, Order[4..], o5.result, o5.cache);
  }

  /** A line never forgets a cached package and only ever appends to the fetched documents. */
  lemma StepGrows(s: string, c: Cache, world: World, t: LegacyToken)
    ensures forall p :: p in c.entries ==> p in Step(s, c, world, t).cache.entries
    ensures |Step(s, c, world, t).cache.fetched| >= |c.fetched|
    ensures Step(s, c, world, t).cache.fetched[..|c.fetched|] == c.fetched
  {
  }

  /** The lines only ever add packages to the cache and documents to the fetched list. */
  lemma {:induction false} SubstituteGrows(s: string, c: Cache, world: World, tokens: seq<LegacyToken>)
    ensures var r := Substitute(s, c, world, tokens);
      && (forall p :: p in c.entries ==> p in r.cache.entries)
      && |r.cache.fetched| >= |c.fetched| && r.cache.fetched[..|c.fetched|] == c.fetched
    decreases |tokens|
  {
    if tokens != [] {
      var o := Step(s, c, world, tokens[0]);
      StepGrows(s, c, world, tokens[0]);
      SubstituteStep(s, c, world, tokens, o.result, o.cache);
      if o.result.Success? {
        SubstituteGrows(o.result.value, o.cache, world, tokens[1..]);
        var r := Substitute(o.result.value, o.cache, world, tokens[1..]);
        assert r.cache.fetched[..|c.fetched|] == r.cache.fetched[..|o.cache.fetched|][..|c.fetched|];
      }
    }
  }

  /** From an empty cache, DRUPAL_LATEST fetches Drupal's document and nothing else. */
  lemma DrupalLineFromEmpty(s: string, world: World)
    ensures var o := Step(s, EmptyCache, world, DrupalLatest);
      && o.result.Success?
      && o.cache.entries.Keys == {MB.DrupalPackage}
      && o.cache.fetched == [MB.PackageUrl(MB.DrupalPackage)]
  {
  }

  /** CIVI_DEV never touches the cache. */
  lemma CiviDevLine(s: string, c: Cache, world: World)
    ensures Step(s, c, world, CiviDev).result.Success?
    ensures Step(s, c, world, CiviDev).cache == c
  {
  }

  /** With nothing cached for CiviCRM, CIVI_RELEASECANDIDATE fetches CiviCRM's document. */
  lemma CiviReleaseCandidateLineFetches(s: string, c: Cache, world: World)
    requires MB.CiviPackage !in c.entries
    ensures MB.CiviPackage in Step(s, c, world, CiviReleaseCandidate).cache.entries
    ensures Step(s, c, world, CiviReleaseCandidate).cache.fetched == c.fetched + [MB.PackageUrl(MB.CiviPackage)]
  {
  }

  /**
   * Whatever the text, `replaceCarrotVars` asks the registry about both
   * packages: from an empty cache the first two fetches are Drupal's and
   * CiviCRM's documents, even for a text without a single placeholder.
   */
  lemma SubstituteAlwaysLooksUp(s: string, world: World)
    ensures var r := Substitute(s, EmptyCache, world, Order);
      && MB.DrupalPackage in r.cache.entries
      && MB.CiviPackage in r.cache.entries
      && |r.cache.fetched| >= 2
      && r.cache.fetched[..2] == [MB.PackageUrl(MB.DrupalPackage), MB.PackageUrl(MB.CiviPackage)]
  {
    var o1 := Step(s, EmptyCache, world, DrupalLatest);
    DrupalLineFromEmpty(s, world);
    SubstituteStep(s, EmptyCache, world, Order, o1.result, o1.cache);
    var o2 := Step(o1.result.value, o1.cache, world, CiviDev);
    CiviDevLine(o1.result.value, o1.cache, world);
    SubstituteStep(o1.result.value, o1.cache, world, Order[1..], o2.result, o2.cache);
    var o3 := Step(o2.result.value, o2.cache, world, CiviReleaseCandidate);
    CiviReleaseCandidateLineFetches(o2.result.value, o2.cache, world);
    StepGrows(o2.result.value, o2.cache, world, CiviReleaseCandidate);
    SubstituteStep(o2.result.value, o2.cache, world, Order[2..], o3.result, o3.cache);
    assert o3.cache.fetched == [MB.PackageUrl(MB.DrupalPackage), MB.PackageUrl(MB.CiviPackage)];
    if o3.result.Success? {
      SubstituteGrows(o3.result.value, o3.cache, world, Order[3..]);
    }
  }

  /** What `build` computes: strip ".git", fetch the manifest, default, encode, substitute. */
  ghost function BuildSpec(repoUrl: string, branch: string, c: Cache, world: World): MB.Outcome {
    var matrix := MB.ManifestMatrix(world.manifestAt(MB.ManifestUrl(MB.RemoveDotGit(repoUrl), branch)));
    if matrix.Failure? then MB.Outcome(Failure(matrix.error), c)
    else Substitute(Encode(JObj(Filled(matrix.value))), c, world, Order)
  }

  /** A scalar `singlePR` ends the build in `fillMatrix`'s type check: no registry lookup happens. */
  lemma ScalarManifestFails(repoUrl: string, branch: string, c: Cache, world: World)
    requires var v := world.manifestAt(MB.ManifestUrl(MB.RemoveDotGit(repoUrl), branch));
      v.Some? && (v.value.JBool? || v.value.JInt? || v.value.JStr?)
    ensures BuildSpec(repoUrl, branch, c, world) == MB.Outcome(Failure(ArgumentType("matrix")), c)
  {
  }

  // ---------------------------------------------------------------------------
  // The code as written

  /** The registry URL as line 111 writes it: in single quotes `{$package}` is not interpolated. */
  function RegistryUrlAsWritten(package: string): string {
    "https://repo.packagist.org/p2/{$package}.json"
  }

  /** As written, Drupal and CiviCRM are looked up at one and the same URL, which names neither package. */
  lemma RegistryUrlAsWrittenIgnoresPackage(p: string, q: string)
    ensures RegistryUrlAsWritten(p) == RegistryUrlAsWritten(q)
    ensures p != q ==> MB.PackageUrl(p) != MB.PackageUrl(q)
  {
    if MB.PackageUrl(p) == MB.PackageUrl(q) {
      MB.PackageUrlInjective(p, q);
    }
  }

  /**
   * `getPhpVersion` as written: line 130 calls `preg_replace` with two
   * arguments, which throws ArgumentCountError as soon as one cached record has
   * a non-empty `require.php`; otherwise the answer is "7.0".
   */
  function PhpVersionAsWritten(entries: map<string, PackageEntry>): Result<string> {
    if exists p :: p in entries && entries[p].requirePhp.Some? && !PhpEmpty(entries[p].requirePhp.value) then
      Failure(ArgumentCount("preg_replace"))
    else Success("7.0")
  }

  /** With a single cached record, the answer is that record's release if it is above 7.0. */
  lemma HighestOfOne(p: string, e: PackageEntry)
    ensures Highest(map[p := e], {p}) == Later(Floor, e)
  {
    var m := map[p := e];
    HighestStep(Floor, m, {}, p);
    assert {} + {p} == {p};
    HighestUnique(Later(Floor, e), Highest(m, {p}), m, {p});
  }

  /** A lower bound as the registry writes it: ">=8.1" names 8.1. */
  lemma ConstraintAtLeastExample()
    ensures ConstraintRelease(">=8.1") == Some(PhpRelease(8, 1))
  {
    MB.SmallNumerals();
    assert ">=8.1" == ">=" + ReleaseText(PhpRelease(8, 1)) + [];
    ConstraintOfRelease(">=", PhpRelease(8, 1), []);
  }

  /** A disjunction as the registry writes it: "^7.4 || ^8.0" names 7.4, its first alternative. */
  lemma ConstraintDisjunctionExample()
    ensures ConstraintRelease("^7.4 || ^8.0") == Some(PhpRelease(7, 4))
  {
    var first := "^7.4 ";
    assert '|' !in first;
    assert "^7.4 || ^8.0" == first + "|" + "| ^8.0";
    ConstraintFirstAlternative(first, "| ^8.0");
    TrailingSpaceExample();
  }

  lemma TrailingSpaceExample()
    ensures ConstraintRelease("^7.4 ") == Some(PhpRelease(7, 4))
  {
    var word := "^7.4";
    assert '|' !in word && ' ' !in word;
    assert "^7.4 " == word + " " + "";
    ConstraintFirstWord(word, "");
    CaretExample();
  }

  lemma CaretExample()
    ensures ConstraintRelease("^7.4") == Some(PhpRelease(7, 4))
  {
    DigitChars();
    assert NatToString(7) == "7" && NatToString(4) == "4";
    assert "^7.4" == "^" + ReleaseText(PhpRelease(7, 4)) + [];
    ConstraintOfRelease("^", PhpRelease(7, 4), []);
  }

  /** A registry record requiring PHP >=8.1 makes the code as written fail, where the described behaviour answers 8.1. */
  lemma PhpVersionAsWrittenFails()
    ensures var m := map[MB.DrupalPackage := PackageEntry(Some("10.1.0"), Some(">=8.1"), true)];
      PhpVersionAsWritten(m).Failure? && Highest(m, m.Keys) == PhpRelease(8, 1)
  {
    var e := PackageEntry(Some("10.1.0"), Some(">=8.1"), true);
    var m := map[MB.DrupalPackage := e];
    assert m[MB.DrupalPackage].requirePhp.Some? && !PhpEmpty(m[MB.DrupalPackage].requirePhp.value);
    ConstraintAtLeastExample();
    assert m.Keys == {MB.DrupalPackage};
    HighestOfOne(MB.DrupalPackage, e);
  }

  /** Where no record has a `require.php`, the code as written and the described behaviour agree on "7.0". */
  lemma PhpVersionAsWrittenWithoutConstraints(entries: map<string, PackageEntry>)
    requires forall p :: p in entries ==> entries[p].requirePhp.None?
    ensures PhpVersionAsWritten(entries) == Success("7.0")
    ensures SensiblePhp(entries) == "7.0"
  {
    assert IsHighest(Floor, entries, entries.Keys);
    HighestUnique(Floor, Highest(entries, entries.Keys), entries, entries.Keys);
    MB.SmallNumerals();
  }

  // ---------------------------------------------------------------------------
  // The builder

  class MatrixBuilder {
    const repoUrl: string
    const branch: string
    const world: World
    /** `self::$packagist`, one cache per builder. */
    var packagist: map<string, PackageEntry>
    /** Registry URLs fetched so far, in order. */
    ghost var fetched: seq<string>

    ghost function State(): Cache
      reads this
    {
      Cache(packagist, fetched)
    }

    constructor (repoUrl: string, branch: string, world: World)
      ensures this.repoUrl == repoUrl && this.branch == branch && this.world == world
      ensures State() == EmptyCache
    {
      this.repoUrl := repoUrl;
      this.branch := branch;
      this.world := world;
      packagist := map[];
      fetched := [];
    }

    /** `build` */
    method Build() returns (r: Result<string>)
      modifies this
      ensures MB.Outcome(r, State()) == BuildSpec(repoUrl, branch, old(State()), world)
    {
      var url := MB.RemoveDotGit(repoUrl);
      var manifest := MB.ManifestMatrix(world.manifestAt(MB.ManifestUrl(url, branch)));
      if manifest.Failure? {
        return Failure(manifest.error);
      }
      var matrix := FillMatrix(manifest.value);
      r := ReplaceCarrotVars(Encode(JObj(matrix)));
    }

    /** `fillMatrix` */
    static method FillMatrix(matrix: seq<Member>) returns (r: seq<Member>)
      ensures r == Filled(matrix)
    {
      r := matrix;
      if EmptyAt(r, MB.PhpDimension) {
        r := Put(r, MB.PhpDimension, MB.Placeholder(PhpSensible));
      }
      if EmptyAt(r, MB.DrupalDimension) {
        r := Put(r, MB.DrupalDimension, MB.Placeholder(DrupalLatest));
      }
      if EmptyAt(r, MB.CiviDimension) {
        r := Put(r, MB.CiviDimension, MB.Placeholder(CiviReleaseCandidate));
      }
    }

    /** `replaceCarrotVars` */
    method ReplaceCarrotVars(s: string) returns (r: Result<string>)
      modifies this
      ensures MB.Outcome(r, State()) == Substitute(s, old(State()), world, Order)
    {
      ghost var c0 := State();
      r := ReplaceToken(s, DrupalLatest);
      ghost var o1 := MB.Outcome(r, State());
      r := ReplaceToken(r.value, CiviDev);
      ghost var o2 := MB.Outcome(r, State());
      r := ReplaceToken(r.value, CiviReleaseCandidate);
      ghost var o3 := MB.Outcome(r, State());
      if r.Failure? {
        SubstituteLines(s, c0, world, o1, o2, o3, o3, o3);
        return;
      }
      r := ReplaceToken(r.value, CiviLatest);
      ghost var o4 := MB.Outcome(r, State());
      r := ReplaceToken(r.value, PhpSensible);
      SubstituteLines(s, c0, world, o1, o2, o3, o4, MB.Outcome(r, State()));
    }

    /** One line of `replaceCarrotVars`: resolve, then replace. */
    method ReplaceToken(text: string, t: LegacyToken) returns (r: Result<string>)
      modifies this
      ensures MB.Outcome(r, State()) == Step(text, old(State()), world, t)
      ensures t != CiviReleaseCandidate ==> r.Success?
    {
      var v: Result<string>;
      if t == DrupalLatest {
        var d := GetDrupalVersion();
        v := Success(d);
      } else if t == PhpSensible {
        var p := GetPhpVersion();
        v := Success(p);
      } else {
        v := GetCiviVersion(t);
      }
      if v.Failure? {
        return v;
      }
      r := Success(ReplaceAll(text, TokenText(t), v.value));
    }

    /** `getDrupalVersion` */
    method GetDrupalVersion() returns (version: string)
      modifies this
      ensures MB.Outcome(Success(version), State()) == DrupalVersion(old(State()), world)
    {
      var latest := GetLatestFromPackagist(MB.DrupalPackage);
      version := DrupalRule(latest);
    }

    /** `getCiviVersion` */
    method GetCiviVersion(stage: LegacyToken) returns (r: Result<string>)
      modifies this
      ensures MB.Outcome(r, State()) == CiviVersion(old(State()), stage, world)
    {
      if stage == CiviDev {
        return Success("dev-master");
      }
      var latest := GetLatestFromPackagist(MB.CiviPackage);
      r := CiviRule(stage, latest);
    }

    /** `getLatestFromPackagist`, at the package's own registry document. */
    method GetLatestFromPackagist(package: string) returns (version: string)
      modifies this
      ensures Lookup(version, State()) == Latest(old(State()), package, MB.PackageUrl(package), world)
    {
      if package !in packagist || packagist[package].IsEmpty() {
        var url := MB.PackageUrl(package);
        packagist := packagist[package := FirstEntry(world.registryAt(url), package)];
        fetched := fetched + [url];
      }
      version := packagist[package].version.GetOr("");
    }

    /** `getPhpVersion`: the highest release the cached records require, never below 7.0. */
    method GetPhpVersion() returns (version: string)
      ensures version == SensiblePhp(packagist)
    {
      var highest := Floor;
      var todo := packagist.Keys;
      while todo != {}
        invariant todo <= packagist.Keys
        invariant IsHighest(highest, packagist, packagist.Keys - todo)
        decreases todo
      {
        var p :| p in todo;
        ghost var before := highest;
        var php := packagist[p].requirePhp;
        if php.Some? && !PhpEmpty(php.value) {
          var v := ConstraintRelease(php.value);
          if v.Some? && Newer(v.value, highest) {
            highest := v.value;
          }
        }
        assert highest == Later(before, packagist[p]);
        HighestStep(before, packagist, packagist.Keys - todo, p);
        assert packagist.Keys - todo + {p} == packagist.Keys - (todo - {p});
        todo := todo - {p};
      }
      assert packagist.Keys - todo == packagist.Keys;
      HighestUnique(highest, Highest(packagist, packagist.Keys), packagist, packagist.Keys);
      version := ReleaseText(highest);
    }
  }
}
