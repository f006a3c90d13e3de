# webformgithubbridge: test-matrix builder and GitLab webhook, in Dafny

The Drupal module `webformgithubbridge` connects GitLab merge requests to the
CiviCARROT test workflow on GitHub. GitLab posts a merge-request event to the
module's webhook. The controller then decides what to do:

- an empty body, or a merge request that is no longer open: nothing happens;
- any other kind of event: the submitter gets a "merge objects only" mail;
- an open merge request: the test matrix is built, and the CiviCARROT workflow
  is dispatched with that matrix and the merge request's URL. When GitHub
  answers with text, that text is logged and mailed to the submitter.

The matrix comes from the repository's `tests/civicarrot.json` manifest:

1. Its `singlePR` object is read.
2. The `php-versions`, `drupal` and `civicrm` dimensions, when missing or empty,
   are defaulted to placeholder tokens (`CIVICARROT_PHP_SENSIBLE`,
   `CIVICARROT_DRUPAL_LATEST`, `CIVICARROT_CIVI_RELEASECANDIDATE`).
3. The matrix is JSON-encoded.
4. Each token in the text is replaced by a version string. Drupal and CiviCRM
   versions come from the Packagist registry, with one cached record per
   package. The PHP version comes from the running interpreter.

The project has eight files:

| file | module | what it holds |
|---|---|---|
| `wrappers.dfy` | `Wrappers` | `Option`, `Result` and the PHP errors the model can raise (`Fault`) |
| `text.dfy` | `Text` | `strpos`, `str_replace`, `explode`, `empty()` on strings, decimal numerals |
| `json.dfy` | `Json` | decoded JSON as PHP arrays: `isset`, `empty`, ordered key assignment, `json_encode` |
| `placeholders.dfy` | `Placeholders` | the six tokens and their texts |
| `remote.dfy` | `Remote` | the outside world the builders see, and the per-package registry cache |
| `matrix_builder.dfy` | `MatrixBuilder` | the builder the controller uses (`src/Matrix/MatrixBuilder.php`) |
| `matrix_builder_v1.dfy` | `MatrixBuilderV1` | the older builder (`src/Matrix/Builder.php`) |
| `workflow_controller.dfy` | `WorkflowController` | `run`, `checkAccess` and `assembleMatrix` |

`src/Matrix/Builder.php` declares the same class name as
`src/Matrix/MatrixBuilder.php`, but the autoloader only finds the latter. So
the older builder is a module of its own, and lemmas state where the two
builders differ.

## How the model is organised

**Specification functions.** Each builder's behaviour is a pure function of its
inputs and its registry cache:

- `Step` is one replacement;
- `Substitute` runs the replacements in order;
- `BuildSpec` is the whole of `build`.

The result of each is an `Outcome`, which pairs the result with the cache it
leaves behind.

**The cache.** The cache records the registry URLs fetched so far as a ghost
list. That makes "no lookup" and "no refetch" statable.

**Classes and methods.** The builders and the controller are classes:

- the cache is a `map` field;
- the controller's log, mails and dispatches are an `effects` field that its
  methods extend.

Each method is proved equal to its specification function. The lemmas then
state what the code promises about those functions.

**The outside world.** Things the builders fetch are fields of `Remote.World`:

- the decoded `singlePR` value of the manifest at a URL;
- the registry document at a URL;
- `phpversion()`.

GitHub's answer to a dispatch request is a function from the posted body to a
`CurlResult`.

**Runtime errors.** The PHP code sometimes raises, through a `TypeError`, an
`ArgumentCountError` or a call to an undefined method. These appear as
`Failure(Fault)` results. A build that fails makes `run` answer `Crashed`
instead of `Ok`.

## Model

| member | source | states |
|---|---|---|
| `Text.IndexOf` | src/Matrix/MatrixBuilder.php:87 | `strpos`: the found index is an occurrence and no earlier index is; no result means no occurrence anywhere |
| `Text.ContainsIff` | src/Matrix/MatrixBuilder.php:87 | `strpos(...) !== FALSE` holds exactly when the token occurs at some index |
| `Text.Split` | src/Matrix/MatrixBuilder.php:88 | cutting a text at every occurrence leaves at least one piece, and no piece contains the search string |
| `Text.SplitJoin` | src/Matrix/MatrixBuilder.php:88 | joining the pieces back with the search string restores the text |
| `Text.ReplaceIsJoinOfSplit` | src/Matrix/MatrixBuilder.php:88 | `str_replace` keeps the text between occurrences and puts the replacement in place of each occurrence |
| `Text.ReplaceLeavesNoOccurrence` | src/Matrix/MatrixBuilder.php:88 | a non-empty replacement sharing no character with the search string leaves no occurrence behind |
| `Text.Explode` | src/Matrix/MatrixBuilder.php:120 | `explode` gives at least one part, and no part contains the delimiter |
| `Text.ExplodeJoin` | src/Matrix/MatrixBuilder.php:120 | joining the parts of `explode` with the delimiter restores the text |
| `Text.ExplodeFirst` | src/Matrix/MatrixBuilder.php:120 | the first part of `explode` is the text before the first delimiter |
| `Text.NatToString` | src/Matrix/MatrixBuilder.php:123 | the decimal text of a number is a numeral whose value is the number, with no leading zero |
| `Text.NumeralRoundTrip` | src/Matrix/MatrixBuilder.php:127 | a numeral without a leading zero is printed back exactly after conversion to a number |
| `Json.Get` | src/Matrix/MatrixBuilder.php:67 | a key is found exactly when it is among the array's keys |
| `Json.Put` | src/Matrix/MatrixBuilder.php:68 | assignment stores the value under the key and changes no other key; an existing key keeps its place and a new key goes last |
| `Json.PutNew` | src/Matrix/MatrixBuilder.php:68 | assigning a key the array lacks appends exactly one member at the end |
| `Json.EscapeChar` | src/Matrix/MatrixBuilder.php:55 | `json_encode` keeps a character exactly when it is not a quote, backslash, slash or control character, and writes each of those as a backslash escape |
| `Json.EscapeHasNoControl` | src/Matrix/MatrixBuilder.php:55 | the encoded text of a string holds no raw control character |
| `Json.EncodeShowsMentioned` | src/Matrix/MatrixBuilder.php:55 | a string value that needs no escaping appears verbatim in the `json_encode` text |
| `Placeholders.TokenTextShape` | src/Matrix/MatrixBuilder.php:87-104 | every token text is non-empty upper-case letters and underscores, which `json_encode` writes unchanged |
| `Placeholders.TokenTextInjective` | src/Matrix/MatrixBuilder.php:87-104 | distinct tokens have distinct texts |
| `Remote.Latest` | src/Matrix/MatrixBuilder.php:163-172 | after a lookup the package is cached, and the answer is the cached record's `version`, or "" when it has none |
| `Remote.LatestCached` | src/Matrix/MatrixBuilder.php:164-171 | a usable cached record is answered from the cache, with no fetch and no change |
| `Remote.LatestFetches` | src/Matrix/MatrixBuilder.php:164-170 | a missing or empty record is fetched exactly once from the package's URL; the first listed record is stored, and other packages' records are kept |
| `Remote.LatestTwice` | src/Matrix/MatrixBuilder.php:163-172 | a second lookup after a non-empty answer fetches nothing and answers the same; after an empty answer it fetches again |
| `MatrixBuilder.RemoveDotGit` | src/Matrix/MatrixBuilder.php:191-196 | a URL ending in ".git" loses exactly those four characters; any other URL is unchanged (the legacy builder's `removeDotGit`, src/Matrix/Builder.php lines 146-151, is the same code and uses this member) |
| `MatrixBuilder.RemoveDotGitOfClone` | src/Matrix/MatrixBuilder.php:191-196 | removing ".git" undoes appending it |
| `MatrixBuilder.PackageUrlInjective` | src/Matrix/MatrixBuilder.php:167 | distinct packages are looked up at distinct registry URLs |
| `MatrixBuilder.FillDimensionSpec` | src/Matrix/MatrixBuilder.php:67-75 | one defaulting step: a missing or empty dimension gets its placeholder list, a filled one keeps its value, other keys are untouched, and existing keys keep their order |
| `MatrixBuilder.FilledWithoutInclude` | src/Matrix/MatrixBuilder.php:65-78 | without `include`, each of `php-versions`, `drupal` and `civicrm` becomes its one-token list exactly when it was missing or empty; every other key keeps its value, and existing keys keep their order |
| `MatrixBuilder.FilledDefaults` | src/Matrix/MatrixBuilder.php:66-76 | after the three defaulting steps in a row, each dimension is filled as its own step would fill it |
| `MatrixBuilder.FilledDefaultsKeepRest` | src/Matrix/MatrixBuilder.php:66-76 | the three defaulting steps leave every other key alone and keep the order of the keys already present |
| `MatrixBuilder.ManifestMatrix` | src/Matrix/MatrixBuilder.php:54-65 | `$matrix['singlePR'] ?? []` passed to `fillMatrix(array ...)`: missing or null gives `[]`, an object is kept, a list gets the keys "0", "1", … with its items in order, and exactly the scalars raise a type error |
| `MatrixBuilder.ListMembers` | src/Matrix/MatrixBuilder.php:53 | a decoded JSON list is a PHP list: its items, in order, under the keys "0", "1", … |
| `MatrixBuilder.FilledOfEmpty` | src/Matrix/MatrixBuilder.php:65-78 | an empty manifest gets exactly php-versions, drupal and civicrm, in that order, each holding its placeholder |
| `MatrixBuilder.ScalarManifestFails` | src/Matrix/MatrixBuilder.php:54-65 | a scalar `singlePR` makes the build raise a type error, with the cache unchanged and no registry lookup |
| `MatrixBuilder.MissingManifestIsDefaults` | src/Matrix/MatrixBuilder.php:51-55 | a manifest that cannot be read, or has no `singlePR`, builds from the matrix of the three placeholders |
| `MatrixBuilder.FilledWithInclude` | src/Matrix/MatrixBuilder.php:66-77 | with `include` set, the manifest comes back unchanged |
| `MatrixBuilder.PlaceholderIsEncoded` | src/Matrix/MatrixBuilder.php:55 | a placeholder list stored under any key makes its token text appear in the encoded matrix |
| `MatrixBuilder.FilledPlaceholderIsEncoded` | src/Matrix/MatrixBuilder.php:54-55 | a defaulted dimension's token appears in the encoded matrix, so its resolver will run |
| `MatrixBuilder.DrupalRule` | src/Matrix/MatrixBuilder.php:114-132 | an empty registry version gives "^9", and any stage other than PRIOR keeps the version |
| `MatrixBuilder.ReleaseComponents` | src/Matrix/MatrixBuilder.php:120 | the first two parts of a release text are its major and minor numerals |
| `MatrixBuilder.NumeralIsZero` | src/Matrix/MatrixBuilder.php:121 | a minor component is the text "0" exactly when the minor number is 0 |
| `MatrixBuilder.DrupalPriorOfRelease` | src/Matrix/MatrixBuilder.php:119-128 | DRUPAL_PRIOR of a release gives "^(major-1)" after an x.0 release, and "~major.(minor-1).1" otherwise |
| `MatrixBuilder.DrupalPriorMinorExample` | src/Matrix/MatrixBuilder.php:126-127 | DRUPAL_PRIOR of 9.2.4 gives "~9.1.1" |
| `MatrixBuilder.DrupalPriorMajorExample` | src/Matrix/MatrixBuilder.php:121-123 | DRUPAL_PRIOR of 10.0.0 gives "^9" |
| `MatrixBuilder.CiviRule` | src/Matrix/MatrixBuilder.php:140-155 | DEV, and an empty registry version, give "dev-master"; LATEST keeps the version |
| `MatrixBuilder.CiviReleaseCandidateOfRelease` | src/Matrix/MatrixBuilder.php:149-152 | CIVI_RELEASECANDIDATE of a release gives the next minor's branch "major.(minor+1).x-dev" |
| `MatrixBuilder.CiviReleaseCandidateExample` | src/Matrix/MatrixBuilder.php:149-151 | CIVI_RELEASECANDIDATE of 5.60.0 gives "5.61.x-dev" |
| `MatrixBuilder.PhpVersionMajorMinor` | src/Matrix/MatrixBuilder.php:179-184 | a runtime version "a.b.c" gives "a.b" |
| `MatrixBuilder.CiviVersion` | src/Matrix/MatrixBuilder.php:140-148 | CIVI_DEV is answered "dev-master" with the cache untouched; the other stages touch the cache only by looking up CiviCRM |
| `MatrixBuilder.SubstituteWithoutPlaceholders` | src/Matrix/MatrixBuilder.php:85-106 | a text containing none of the tokens' texts comes back unchanged, with the cache and the fetched list untouched |
| `MatrixBuilder.ReplaceWithoutPlaceholders` | src/Matrix/MatrixBuilder.php:85-106 | `replaceCarrotVars` on a text without placeholders returns it unchanged and never asks the registry |
| `MatrixBuilder.StepClearsToken` | src/Matrix/MatrixBuilder.php:87-89 | a present token is replaced everywhere: when its value is non-empty and shares no character with the token text, no occurrence is left |
| `MatrixBuilder.MatrixBuilder.constructor` | src/Matrix/MatrixBuilder.php:37-40 | a new builder keeps its URL and commit, with an empty cache |
| `MatrixBuilder.MatrixBuilder.Build` | src/Matrix/MatrixBuilder.php:46-56 | result and new cache are those of `BuildSpec`: strip ".git", fetch the manifest, take `singlePR` (`[]` when missing), default, encode, substitute; a scalar `singlePR` raises before any lookup |
| `MatrixBuilder.MatrixBuilder.FillMatrix` | src/Matrix/MatrixBuilder.php:65-78 | the in-place defaulting computes `Filled`, whose properties are the `Filled…` lemmas above |
| `MatrixBuilder.MatrixBuilder.ReplaceCarrotVars` | src/Matrix/MatrixBuilder.php:85-106 | the six guarded blocks in order compute `Substitute` over DRUPAL_LATEST, DRUPAL_PRIOR, CIVI_DEV, CIVI_RELEASECANDIDATE, CIVI_LATEST, PHP_SENSIBLE, including the cache they leave |
| `MatrixBuilder.MatrixBuilder.ReplaceToken` | src/Matrix/MatrixBuilder.php:87-89 | one block: the resolver runs only when the token's text occurs, and then every occurrence is replaced |
| `MatrixBuilder.MatrixBuilder.GetDrupalVersion` | src/Matrix/MatrixBuilder.php:114-132 | looks up Drupal core and applies `DrupalRule` to the answer |
| `MatrixBuilder.MatrixBuilder.GetCiviVersion` | src/Matrix/MatrixBuilder.php:140-155 | DEV answers without a lookup; the other stages look up CiviCRM and apply `CiviRule` |
| `MatrixBuilder.MatrixBuilder.GetLatestFromPackagist` | src/Matrix/MatrixBuilder.php:163-172 | the cache update and the answer are those of `Remote.Latest` |
| `MatrixBuilderV1.FilledDimensions` | src/Matrix/Builder.php:58-69 | each dimension becomes its one-token list exactly when it was missing or empty, whatever else the manifest holds; other keys and the key order are kept |
| `MatrixBuilderV1.FilledAgreesWithoutInclude` | src/Matrix/Builder.php:58-69 | without `include`, the legacy builder defaults exactly as the canonical builder does |
| `MatrixBuilderV1.FilledDespiteInclude` | src/Matrix/Builder.php:58-69 | with `include` set, a missing dimension is still defaulted, so the result differs from the canonical builder's |
| `MatrixBuilderV1.DrupalRule` | src/Matrix/Builder.php:87-90 | an empty registry version gives "^9"; anything else gives "~" followed by the version |
| `MatrixBuilderV1.DrupalRuleDiffers` | src/Matrix/Builder.php:89 | for a usable version, the legacy DRUPAL_LATEST is the canonical answer with "~" in front |
| `MatrixBuilderV1.CiviRule` | src/Matrix/Builder.php:92-107 | DEV, and an empty version, give "dev-master"; LATEST keeps the version |
| `MatrixBuilderV1.ReleaseCandidateOfRelease` | src/Matrix/Builder.php:101-104 | RELEASECANDIDATE of a release gives the previous minor's branch "major.(minor-1).x-dev" |
| `MatrixBuilderV1.ReleaseCandidateRulesDiffer` | src/Matrix/Builder.php:101-104 | on the same release, the legacy builder takes minor-1 where the canonical builder takes minor+1 |
| `MatrixBuilderV1.ReleaseCandidateExample` | src/Matrix/Builder.php:101-104 | RELEASECANDIDATE of 5.60.0 gives "5.59.x-dev" |
| `MatrixBuilderV1.ReleaseCandidateOfFirstMinor` | src/Matrix/Builder.php:103 | after an x.0 release the minor becomes -1: "major.-1.x-dev" |
| `MatrixBuilderV1.NewerTotal` | src/Matrix/Builder.php:134 | the major.minor comparison is a strict total order |
| `MatrixBuilderV1.ReleaseTextComponents` | src/Matrix/Builder.php:133 | the text of a release explodes into its major and minor numerals, which read back as its numbers |
| `MatrixBuilderV1.KeepVersionChars` | src/Matrix/Builder.php:129-130 | only digits and dots remain, every digit and dot of the input survives, and nothing new appears; order and count follow from `KeepVersionCharsAppend` and `KeepVersionCharsOfChar` |
| `MatrixBuilderV1.KeepVersionCharsOfChar` | src/Matrix/Builder.php:129-130 | one character is kept exactly when it is a digit or a dot |
| `MatrixBuilderV1.KeepVersionCharsAppend` | src/Matrix/Builder.php:129-130 | the kept characters of two texts follow each other in order; with the one-character case this makes the function the filter that `preg_replace` computes |
| `MatrixBuilderV1.KeepVersionCharsOfVersion` | src/Matrix/Builder.php:129-130 | a text of digits and dots is kept whole |
| `MatrixBuilderV1.DropOperator` | src/Matrix/Builder.php:129-130 | an operator prefix without digits or dots is removed entirely |
| `MatrixBuilderV1.ConstraintFirstAlternative` | src/Matrix/Builder.php:126-127 | only the constraint before the first "\|" counts |
| `MatrixBuilderV1.ConstraintFirstWord` | src/Matrix/Builder.php:126-128 | only the first space-separated word counts |
| `MatrixBuilderV1.ConstraintOfRelease` | src/Matrix/Builder.php:126-133 | an operator before "major.minor[.patch]" names exactly that major.minor |
| `MatrixBuilderV1.ConstraintOfMajor` | src/Matrix/Builder.php:131-133 | a constraint naming only a major version names its ".0" release |
| `MatrixBuilderV1.ConstraintAtLeastExample` | src/Matrix/Builder.php:126-133 | ">=8.1" names 8.1 |
| `MatrixBuilderV1.ConstraintDisjunctionExample` | src/Matrix/Builder.php:126-133 | "^7.4 \|\| ^8.0" names 7.4, from its first alternative |
| `MatrixBuilderV1.TrailingSpaceExample` | src/Matrix/Builder.php:128 | "^7.4 " names 7.4 |
| `MatrixBuilderV1.CaretExample` | src/Matrix/Builder.php:129-133 | "^7.4" names 7.4 |
| `MatrixBuilderV1.HighestUnique` | src/Matrix/Builder.php:120-138 | at most one release is the highest of 7.0 and the cached records' releases |
| `MatrixBuilderV1.HighestStep` | src/Matrix/Builder.php:121-137 | one loop iteration over a further record keeps the running value the highest |
| `MatrixBuilderV1.Highest` | src/Matrix/Builder.php:118-139 | the highest release over a set of cached records: never below 7.0, no record asks for more, and it is 7.0 or some record's release |
| `MatrixBuilderV1.HighestOfOne` | src/Matrix/Builder.php:120-138 | with a single cached record, the answer is the newer of 7.0 and that record's release |
| `MatrixBuilderV1.Step` | src/Matrix/Builder.php:77-83 | every line except CIVI_RELEASECANDIDATE succeeds, whatever the text, the cache and the registry |
| `MatrixBuilderV1.SubstituteLines` | src/Matrix/Builder.php:76-85 | the five lines, each run on the text and cache the previous one left, give `Substitute`: the outcome of a failed release candidate, otherwise that of PHP_SENSIBLE |
| `MatrixBuilderV1.SubstituteLastLines` | src/Matrix/Builder.php:80-83 | after a successful release candidate, CIVI_LATEST and PHP_SENSIBLE run to the end of the lines |
| `MatrixBuilderV1.StepGrows` | src/Matrix/Builder.php:77-83 | a line never drops a cached package, and only appends to the fetched URLs |
| `MatrixBuilderV1.SubstituteGrows` | src/Matrix/Builder.php:76-85 | the whole substitution never drops a cached package, and only appends to the fetched URLs |
| `MatrixBuilderV1.DrupalLineFromEmpty` | src/Matrix/Builder.php:77 | from an empty cache, the DRUPAL_LATEST line fetches Drupal's document and nothing else, whatever the text |
| `MatrixBuilderV1.CiviDevLine` | src/Matrix/Builder.php:78 | the CIVI_DEV line never touches the cache |
| `MatrixBuilderV1.CiviReleaseCandidateLineFetches` | src/Matrix/Builder.php:79 | with nothing cached for CiviCRM, the RELEASECANDIDATE line fetches CiviCRM's document |
| `MatrixBuilderV1.SubstituteAlwaysLooksUp` | src/Matrix/Builder.php:76-85 | every resolver runs even when its token is absent: from an empty cache, the first two fetches are Drupal's and CiviCRM's, for any text |
| `MatrixBuilderV1.RegistryUrlAsWrittenIgnoresPackage` | src/Matrix/Builder.php:111 | as written, every package is looked up at the same URL, where the intended URLs of distinct packages differ |
| `MatrixBuilderV1.PhpVersionAsWrittenFails` | src/Matrix/Builder.php:130 | a record requiring ">=8.1" makes the code as written fail, where the intended answer is 8.1 |
| `MatrixBuilderV1.PhpVersionAsWrittenWithoutConstraints` | src/Matrix/Builder.php:121-125 | with no `require.php` anywhere, the code as written and the intended behaviour both answer "7.0" |
| `MatrixBuilderV1.MatrixBuilder.constructor` | src/Matrix/Builder.php:36-39 | a new builder keeps its URL and branch, with an empty cache |
| `MatrixBuilderV1.MatrixBuilder.Build` | src/Matrix/Builder.php:45-51 | result and new cache are those of the legacy `BuildSpec`, with the same handling of `singlePR` |
| `MatrixBuilderV1.ScalarManifestFails` | src/Matrix/Builder.php:49 | a scalar `singlePR` makes the legacy build raise a type error, with the cache unchanged |
| `MatrixBuilderV1.MatrixBuilder.FillMatrix` | src/Matrix/Builder.php:58-69 | the in-place defaulting computes the legacy `Filled` |
| `MatrixBuilderV1.MatrixBuilder.ReplaceCarrotVars` | src/Matrix/Builder.php:76-85 | the five unguarded replacements, PHP_SENSIBLE last, compute the legacy `Substitute`, including the cache they leave |
| `MatrixBuilderV1.MatrixBuilder.ReplaceToken` | src/Matrix/Builder.php:77-83 | one line: the resolver always runs; only the release candidate can fail |
| `MatrixBuilderV1.MatrixBuilder.GetDrupalVersion` | src/Matrix/Builder.php:87-90 | looks up Drupal core and applies the legacy `DrupalRule` |
| `MatrixBuilderV1.MatrixBuilder.GetCiviVersion` | src/Matrix/Builder.php:92-107 | DEV answers without a lookup; the other stages look up CiviCRM and apply the legacy `CiviRule` |
| `MatrixBuilderV1.MatrixBuilder.GetLatestFromPackagist` | src/Matrix/Builder.php:109-116 | the cache update and the answer are those of `Remote.Latest`, at the package's own URL |
| `MatrixBuilderV1.MatrixBuilder.GetPhpVersion` | src/Matrix/Builder.php:118-139 | the loop over the cache returns the text of `Highest`: the newest major.minor any cached `require.php` asks for, never below 7.0 |
| `WorkflowController.Email` | src/Controller/WorkflowController.php:72 | the submitter's email is present exactly when `user.email` is non-empty, and then it is that value |
| `WorkflowController.ClassifyOpenMergeRequest` | src/Controller/WorkflowController.php:74-95 | the dispatch branch is taken exactly for a non-empty body whose `object_kind` and `event_type` are "merge_request" and whose state is "opened" |
| `WorkflowController.ClassifyWrongEvent` | src/Controller/WorkflowController.php:87-88 | the "merge objects only" branch is taken exactly for a non-empty body that is not a string and whose `object_kind` or `event_type` is not "merge_request" |
| `WorkflowController.ClassifyUnreadable` | src/Controller/WorkflowController.php:78-80 | the conditions raise exactly for a non-empty string body (reading `object_kind`) or a merge-request event whose `object_attributes` is a string (reading `state`) |
| `WorkflowController.EmptyBodyAnswersOk` | src/Controller/WorkflowController.php:74-77 | an empty or undecodable body sends no mail, dispatches nothing, and is answered Ok |
| `WorkflowController.ClosedMergeRequestIsQuiet` | src/Controller/WorkflowController.php:78-86 | a merge request that is not open causes no effect at all and is answered Ok |
| `WorkflowController.WrongEventNotifies` | src/Controller/WorkflowController.php:87-94 | any other event dispatches nothing, and sends one `merge_objects_only` mail exactly when the submitter has an email |
| `WorkflowController.ReportParts` | src/Controller/WorkflowController.php:124-143 | after the post, a non-empty answer sends one `trigger_failure` mail with `result` set to the answer, exactly when an email is present; there is exactly one dispatch |
| `WorkflowController.ReportEffects` | src/Controller/WorkflowController.php:96-143 | the dispatch branch posts `{"ref":"main","inputs":{"matrix":…,"prurl":…}}` once, and mails only for a non-empty answer to a submitter with an email |
| `WorkflowController.OpenMergeRequestDispatches` | src/Controller/WorkflowController.php:95-147 | an open merge request whose matrix builds is dispatched once with the built matrix and its URL, and is answered Ok |
| `WorkflowController.AtMostOneMailAndDispatch` | src/Controller/WorkflowController.php:74-144 | whatever is posted, a run sends at most one mail and dispatches at most once |
| `WorkflowController.AnswerIsOk` | src/Controller/WorkflowController.php:146-147 | the answer is Ok exactly unless a condition reads a key of a string, or the matrix build of an open merge request raises |
| `WorkflowController.StringBodyCrashes` | src/Controller/WorkflowController.php:78 | a body decoding to the string "hello" raises at the read of `object_kind`, with no effect |
| `WorkflowController.StringAttributesCrash` | src/Controller/WorkflowController.php:80 | a merge-request event whose `object_attributes` is "x" raises at the read of `state`, with no effect |
| `WorkflowController.StringProjectCrashes` | src/Controller/WorkflowController.php:99 | an open merge request whose `project` is a string raises at the read of `git_http_url`; nothing is dispatched |
| `WorkflowController.EmptyBodyAsWrittenCrashes` | src/Controller/WorkflowController.php:75 | as written, an empty body raises on the undefined `warn`; the corrected branch answers Ok |
| `WorkflowController.UnconfiguredTokenForbids` | src/Controller/WorkflowController.php:155 | without a usable configured token, nobody is let in |
| `WorkflowController.OnlyTheTokenIsAllowed` | src/Controller/WorkflowController.php:153-160 | only the configured token is let in, and a usable configured token always is |
| `WorkflowController.WorkflowController.constructor` | src/Controller/WorkflowController.php:46-50 | a controller keeps its configured token and starts with no effects |
| `WorkflowController.WorkflowController.Run` | src/Controller/WorkflowController.php:69-148 | the if/elseif chain answers `Respond(...).response` and appends exactly `Respond(...).effects`, whose properties are the lemmas above |
| `WorkflowController.WorkflowController.Trigger` | src/Controller/WorkflowController.php:106-143 | the post and the report of its answer append exactly the effects of `Report` |
| `WorkflowController.WorkflowController.AssembleMatrix` | src/Controller/WorkflowController.php:168-170 | a fresh canonical builder for the body's repository URL and source branch gives `Matrix`; a string `project` raises at its read, and a null or array argument raises a type error |
| `WorkflowController.WorkflowController.CheckAccess` | src/Controller/WorkflowController.php:153-160 | access is allowed exactly when the header is non-empty and equals the configured token; a refusal logs one warning naming the token |

## Left out

- Network I/O is left out. The manifest and registry fetches, stream contexts, user agents and the cURL dispatch (its options, credentials, cookie file and timeout) are oracles in `Remote.World`, plus the `ci` function. The `print_r(curl_getinfo(...))` debug line is not recorded.
- JSON decoding is left out. Manifests, registry documents and request bodies arrive already decoded. A manifest that cannot be fetched or decoded, or has no `singlePR`, counts as `[]`, as the `?? []` in the code makes it. A `singlePR` that is a scalar ends the build with a type error from `fillMatrix`.
- `json_encode` is modelled for the values the matrix holds, with PHP's default flags: slashes and control characters are escaped, and an array keyed "0", "1", … in order is written as a list. Two things are left out: the `\uXXXX` escaping of non-ASCII characters, and floats.
- The static registry cache is a per-builder field, where `private static $packagist` is shared by all builders of one PHP request. PHP statics start empty with each request, and a request builds at most one matrix, so `assembleMatrix` starts from an empty cache either way.
- The mailer and logger are recorded as effects. Module name, language, rendering and delivery are left out. The `@token` placeholder of the access warning appears already substituted.
- `MatrixBuilder.DrupalRule`, `MatrixBuilder.CiviRule` and `MatrixBuilderV1.CiviRule`: arithmetic on a non-numeral version component returns `Failure(MalformedVersion)`, as does a missing component. Among the cases merged into that failure:
  - leading-numeric strings such as "2-beta", which PHP converts with a warning;
  - a missing index, which PHP reads as null.
- The canonical DRUPAL_LATEST keeps the registry version unchanged, as `src/Matrix/MatrixBuilder.php:130` says. The "~version" answer is the legacy rule (`MatrixBuilderV1.DrupalRule`).
- `MatrixBuilderV1.MatrixBuilder.GetPhpVersion`: the answer is rebuilt from the numbers. A constraint written with leading zeros ("08.1") yields "8.1", where the PHP string would keep them.
- `MatrixBuilderV1.ConstraintRelease`: only constraints that reduce to numerals are compared. Others are skipped, whereas PHP's full `version_compare` would still compare them.
- `MatrixBuilderV1.ConstraintRelease` models the intended `preg_replace('/[^\d\.]/', '', ...)`. With its unescaped `[`…`]` delimiters, the pattern as written would also be wrong.
- WorkflowController.AnswerIsOk: the answer is Ok except when a PHP error ends the request first, which the model shows as `Crashed`. The docblock of `run` promises Ok always. The errors are a read of a string's key in the conditions or the arguments of `assembleMatrix`, and a failed build.
- `WorkflowController.Field` follows PHP 8 for reads: a key of an array, or null with a warning when the value is null, a number, a boolean or a list without that key. A plain read of a string's non-numeric key raises a TypeError (`StringOffset`). `WorkflowController.Classify`, `Matrix` and `Respond` model this at each plain read where a string can appear: the body, `object_attributes` and `project`. Reads under `empty()` never raise, so `Email` keeps null for them. PHP 7 warned and read a character instead; that behaviour is not modelled.
- Decoded objects are taken to have distinct keys, as `json_decode` produces, since it keeps only the last of repeated keys. `Json.Get` and `Json.Put` act on the first member with a key, and `Json.Encode` writes every member.
- The legacy builder looks packages up at the corrected, interpolated registry URL (`MatrixBuilder.PackageUrl`). Its fetch lemmas `DrupalLineFromEmpty`, `CiviReleaseCandidateLineFetches` and `SubstituteAlwaysLooksUp` are therefore stated for that URL. The as-written single-quoted URL is `MatrixBuilderV1.RegistryUrlAsWrittenIgnoresPackage`.
- The `create` factory, dependency injection and `src/Form/SettingsForm.php` (configuration UI) are left out; they contain no decision logic.

## Findings

| source | as written | input that shows it | evidently intended | confidence | as-written member | corrected member |
|---|---|---|---|---|---|---|
| src/Matrix/Builder.php:111 | the registry URL is in single quotes, so `{$package}` is not interpolated and every package is fetched from `https://repo.packagist.org/p2/{$package}.json` | any lookup, for example `drupal/core` and `civicrm/civicrm-core` | each package's own document, `https://repo.packagist.org/p2/<package>.json` | high, not executed | `MatrixBuilderV1.RegistryUrlAsWrittenIgnoresPackage` | `MatrixBuilderV1.MatrixBuilder.GetLatestFromPackagist` |
| src/Matrix/Builder.php:130 | `preg_replace` is called with two arguments, which throws `ArgumentCountError` for any cached record with a non-empty `require.php` | a cached Drupal record requiring ">=8.1" | keep the digits and dots of the first word, then take the highest major.minor: 8.1 | high, not executed | `MatrixBuilderV1.PhpVersionAsWrittenFails` | `MatrixBuilderV1.MatrixBuilder.GetPhpVersion` |
| src/Controller/WorkflowController.php:75 | `$this->logger->warn(...)` calls a method PSR-3 loggers do not have, so an empty body raises | an empty request body | log a warning and answer `{"status":"Ok"}`, like the other branches | medium, not executed | `WorkflowController.EmptyBodyAsWrittenCrashes` | `WorkflowController.EmptyBodyAnswersOk` |
