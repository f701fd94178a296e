/** The boot guard over the environment: rows evaluated in order, the first unsatisfied one
    refuses to start and names the keys to set. */
module ByokGuard {
  import opened JsText

  /** The variables the guard reads. */
  datatype EnvKey =
    | S3_ENDPOINT | S3_ACCESS_KEY | S3_SECRET_KEY | S3_BUCKET
    | OTEL_EXPORTER_OTLP_ENDPOINT
    | INGRESS_BASE_URL | INGRESS_TLS_CERT_PATH
    | DATABASE_URL
    | SMTP_HOST
    | NODE_ENV
    | OPENWHISPR_DEPLOYMENT_MODE

  type Env = map<EnvKey, string>

  datatype Overlay = Storage | Observability | Ingress | PgBouncer | DevTools

  datatype Record = Record(overlay: Overlay, missing: seq<EnvKey>)

  // ---------- reading values ----------

  function NormEnv(env: Env, k: EnvKey): Option<string> {
    if k !in env || Trim(env[k]) == "" then None else Some(Trim(env[k]))
  }

  predicate IsBlank(env: Env, k: EnvKey) { NormEnv(env, k) == None }

  /** The only characters whose lower case is an ASCII letter: A to Z, and the Kelvin sign. */
  function LowerChar(c: char): char {
    if 'A' <= c <= 'Z' then c + ('a' - 'A') else if c == '\U{212A}' then 'k' else c
  }

  /** toLowerCase() === word, for a word of ASCII characters. */
  predicate LowersTo(s: string, word: string) {
    |s| == |word| && forall i :: 0 <= i < |s| ==> LowerChar(s[i]) == word[i]
  }

  predicate Reads(env: Env, k: EnvKey, word: string) {
    NormEnv(env, k).Some? && LowersTo(NormEnv(env, k).value, word)
  }

  // ---------- the rows ----------

  function Filter(env: Env, keys: seq<EnvKey>): seq<EnvKey> {
    if keys == [] then []
    else if IsBlank(env, keys[0]) then [keys[0]] + Filter(env, keys[1..])
    else Filter(env, keys[1..])
  }

  const PARTNER_KEYS := [S3_ACCESS_KEY, S3_SECRET_KEY, S3_BUCKET]

  function StorageRow(env: Env): Option<Record> {
    if IsBlank(env, S3_ENDPOINT) then Some(Record(Storage, [S3_ENDPOINT]))
    else
      var missing := Filter(env, PARTNER_KEYS);
      if |missing| > 0 then Some(Record(Storage, missing)) else None
  }

  function ObservabilityRow(env: Env): Option<Record> {
    if Reads(env, OTEL_EXPORTER_OTLP_ENDPOINT, "disabled") then None
    else if IsBlank(env, OTEL_EXPORTER_OTLP_ENDPOINT) then
      Some(Record(Observability, [OTEL_EXPORTER_OTLP_ENDPOINT]))
    else None
  }

  predicate IsHttps(env: Env) {
    NormEnv(env, INGRESS_BASE_URL).Some? && StartsWith(NormEnv(env, INGRESS_BASE_URL).value, "https://")
  }

  function IngressRow(env: Env): Option<Record> {
    if IsBlank(env, INGRESS_BASE_URL) then Some(Record(Ingress, [INGRESS_BASE_URL]))
    else if IsHttps(env) && IsBlank(env, INGRESS_TLS_CERT_PATH) then Some(Record(Ingress, [INGRESS_TLS_CERT_PATH]))
    else None
  }

  function PgBouncerRow(env: Env): Option<Record> {
    if IsBlank(env, DATABASE_URL) then Some(Record(PgBouncer, [DATABASE_URL])) else None
  }

  function DevToolsRow(env: Env): Option<Record> {
    if !Reads(env, NODE_ENV, "production") then None
    else if IsBlank(env, SMTP_HOST) then Some(Record(DevTools, [SMTP_HOST]))
    else None
  }

  const BYOK_MATRIX: seq<Env -> Option<Record>> :=
    [StorageRow, ObservabilityRow, IngressRow, PgBouncerRow, DevToolsRow]

  predicate IsK8s(env: Env) { Reads(env, OPENWHISPR_DEPLOYMENT_MODE, "k8s") }

  /** The first record of the rows from k on. */
  function FirstRecord(rows: seq<Env -> Option<Record>>, env: Env, k: nat): Option<Record>
    requires k <= |rows|
    decreases |rows| - k
  {
    if k == |rows| then None
    else if rows[k](env).Some? then rows[k](env)
    else FirstRecord(rows, env, k + 1)
  }

  /** None where assertBYOKConfig returns; otherwise the record of the error it throws. */
  function AssertConfig(env: Env): Option<Record> {
    if IsK8s(env) then None else FirstRecord(BYOK_MATRIX, env, 0)
  }

  // ---------- when the guard lets the program boot ----------

  predicate Satisfied(env: Env) {
    && !IsBlank(env, S3_ENDPOINT)
    && (forall k :: k in PARTNER_KEYS ==> !IsBlank(env, k))
    && !IsBlank(env, OTEL_EXPORTER_OTLP_ENDPOINT)
    && !IsBlank(env, INGRESS_BASE_URL) && (IsHttps(env) ==> !IsBlank(env, INGRESS_TLS_CERT_PATH))
    && !IsBlank(env, DATABASE_URL)
    && (Reads(env, NODE_ENV, "production") ==> !IsBlank(env, SMTP_HOST))
  }

  lemma {:induction false} FilterHoldsTheBlanks(env: Env, keys: seq<EnvKey>, k: EnvKey)
    ensures k in Filter(env, keys) <==> k in keys && IsBlank(env, k)
  {
    if keys != [] { FilterHoldsTheBlanks(env, keys[1..], k); }
  }

  lemma StorageRowIff(env: Env)
    ensures StorageRow(env) == None <==>
            !IsBlank(env, S3_ENDPOINT) && forall k :: k in PARTNER_KEYS ==> !IsBlank(env, k)
  {
    var missing := Filter(env, PARTNER_KEYS);
    forall k ensures k in missing <==> k in PARTNER_KEYS && IsBlank(env, k) {
      FilterHoldsTheBlanks(env, PARTNER_KEYS, k);
    }
    if missing != [] { assert missing[0] in missing; }
  }

  /** The `disabled` sentinel is itself a value, so its branch never decides. */
  lemma SentinelNeverDecides(env: Env)
    ensures ObservabilityRow(env) == None <==> !IsBlank(env, OTEL_EXPORTER_OTLP_ENDPOINT)
  {
  }

  lemma MatrixUnrolled(env: Env)
    ensures FirstRecord(BYOK_MATRIX, env, 0) ==
            if StorageRow(env).Some? then StorageRow(env)
            else if ObservabilityRow(env).Some? then ObservabilityRow(env)
            else if IngressRow(env).Some? then IngressRow(env)
            else if PgBouncerRow(env).Some? then PgBouncerRow(env)
            else DevToolsRow(env)
  {
    assert FirstRecord(BYOK_MATRIX, env, 5) == None;
    assert FirstRecord(BYOK_MATRIX, env, 4) == DevToolsRow(env);
    assert FirstRecord(BYOK_MATRIX, env, 3) == if PgBouncerRow(env).Some? then PgBouncerRow(env) else DevToolsRow(env);
    assert FirstRecord(BYOK_MATRIX, env, 2)
        == if IngressRow(env).Some? then IngressRow(env) else FirstRecord(BYOK_MATRIX, env, 3);
    assert FirstRecord(BYOK_MATRIX, env, 1)
        == if ObservabilityRow(env).Some? then ObservabilityRow(env) else FirstRecord(BYOK_MATRIX, env, 2);
  }

  lemma BootsIffSatisfied(env: Env)
    ensures AssertConfig(env) == None <==> IsK8s(env) || Satisfied(env)
  {
    MatrixUnrolled(env);
    StorageRowIff(env);
    SentinelNeverDecides(env);
  }

  /** A refusal names keys that are blank, of the earliest row that is not satisfied. */
  lemma RefusalNamesBlankKeys(env: Env) returns (row: nat)
    requires AssertConfig(env).Some?
    ensures row < |BYOK_MATRIX| && BYOK_MATRIX[row](env) == AssertConfig(env)
    ensures forall k :: 0 <= k < row ==> BYOK_MATRIX[k](env) == None
    ensures AssertConfig(env).value.missing != []
    ensures forall k :: k in AssertConfig(env).value.missing ==> IsBlank(env, k) && k in MATRIX_KEYS
  {
    row := FirstRow(BYOK_MATRIX, env, 0);
    forall k ensures k in Filter(env, PARTNER_KEYS) <==> k in PARTNER_KEYS && IsBlank(env, k) {
      FilterHoldsTheBlanks(env, PARTNER_KEYS, k);
    }
    MatrixUnrolled(env);
  }

  lemma {:induction false} FirstRow(rows: seq<Env -> Option<Record>>, env: Env, k: nat) returns (row: nat)
    requires k <= |rows| && FirstRecord(rows, env, k).Some?
    ensures k <= row < |rows| && rows[row](env) == FirstRecord(rows, env, k)
    ensures forall j :: k <= j < row ==> rows[j](env) == None
    decreases |rows| - k
  {
    if rows[k](env).Some? { row := k; } else { row := FirstRow(rows, env, k + 1); }
  }

  // ---------- fix and retry ----------

  const MATRIX_KEYS: set<EnvKey> := {
    S3_ENDPOINT, S3_ACCESS_KEY, S3_SECRET_KEY, S3_BUCKET, OTEL_EXPORTER_OTLP_ENDPOINT,
    INGRESS_BASE_URL, INGRESS_TLS_CERT_PATH, DATABASE_URL, SMTP_HOST}

  /** The operator sets just the named keys, to values that are not blank. */
  predicate Fixes(env: Env, missing: seq<EnvKey>, fixed: Env) {
    && (forall k :: k in missing ==> !IsBlank(fixed, k))
    && (forall k :: k !in missing ==> NormEnv(fixed, k) == NormEnv(env, k))
  }

  function Blanks(env: Env): set<EnvKey> { set k | k in MATRIX_KEYS && IsBlank(env, k) }

  function One(b: bool): nat { if b then 1 else 0 }

  const PARTNERS: set<EnvKey> := {S3_ACCESS_KEY, S3_SECRET_KEY, S3_BUCKET}

  /** An upper bound for the refusals still to come while these keys are blank; the partner keys
      are refused together. */
  function Rank(blanks: set<EnvKey>): nat {
    One(S3_ENDPOINT in blanks) + One(!(PARTNERS !! blanks))
    + One(OTEL_EXPORTER_OTLP_ENDPOINT in blanks)
    + One(INGRESS_BASE_URL in blanks) + One(INGRESS_TLS_CERT_PATH in blanks)
    + One(DATABASE_URL in blanks) + One(SMTP_HOST in blanks)
  }

  /** What a refusal can name: one key, or all blank partner keys. */
  predicate Nameable(blanks: set<EnvKey>, named: set<EnvKey>) {
    && named != {} && named <= blanks
    && (named == PARTNERS * blanks || exists k :: k in MATRIX_KEYS - PARTNERS && named == {k})
  }

  lemma RankDrops(blanks: set<EnvKey>, named: set<EnvKey>)
    requires Nameable(blanks, named)
    ensures Rank(blanks - named) < Rank(blanks)
  {
    if named == PARTNERS * blanks {
      assert !(PARTNERS !! blanks) && PARTNERS !! (blanks - named);
    } else {
      var k :| k in MATRIX_KEYS - PARTNERS && named == {k};
      assert PARTNERS !! blanks ==> PARTNERS !! (blanks - named);
      assert PARTNERS !! (blanks - named) ==> PARTNERS !! blanks;
    }
  }

  function Named(env: Env): set<EnvKey>
    requires AssertConfig(env).Some?
  {
    set k | k in AssertConfig(env).value.missing
  }

  lemma RefusalIsNameable(env: Env)
    requires AssertConfig(env).Some?
    ensures Nameable(Blanks(env), Named(env))
  {
    var row := RefusalNamesBlankKeys(env);
    var missing := AssertConfig(env).value.missing;
    MatrixUnrolled(env);
    assert missing[0] in Named(env);
    if StorageRow(env).Some? && !IsBlank(env, S3_ENDPOINT) {
      forall k ensures k in missing <==> k in PARTNER_KEYS && IsBlank(env, k) {
        FilterHoldsTheBlanks(env, PARTNER_KEYS, k);
      }
      assert Named(env) == PARTNERS * Blanks(env);
    } else {
      assert |missing| == 1;
      assert Named(env) == {missing[0]};
    }
  }

  /** Each round of fix and retry takes something off the rank and off the set of blank keys. */
  lemma FixLowersRank(env: Env, fixed: Env)
    requires AssertConfig(env).Some? && Fixes(env, AssertConfig(env).value.missing, fixed)
    ensures Rank(Blanks(fixed)) < Rank(Blanks(env))
    ensures Blanks(fixed) < Blanks(env)
  {
    RefusalIsNameable(env);
    RankDrops(Blanks(env), Named(env));
    assert Blanks(fixed) == Blanks(env) - Named(env);
  }

  /** Environments tried in turn: each but the last is refused, and fixed to give the next. */
  predicate IsRetryRun(envs: seq<Env>) {
    && envs != []
    && forall i :: 0 <= i < |envs| - 1 ==>
         AssertConfig(envs[i]).Some? && Fixes(envs[i], AssertConfig(envs[i]).value.missing, envs[i + 1])
  }

  lemma {:induction false} RankAfter(envs: seq<Env>, n: nat)
    requires IsRetryRun(envs) && n < |envs|
    ensures Rank(Blanks(envs[n])) + n <= Rank(Blanks(envs[0]))
    decreases n
  {
    if n > 0 {
      RankAfter(envs, n - 1);
      FixLowersRank(envs[n - 1], envs[n]);
    }
  }

  /** There are at most seven refusals, however the values are chosen. */
  lemma AtMostSevenRefusals(envs: seq<Env>)
    requires IsRetryRun(envs)
    ensures |envs| - 1 <= Rank(Blanks(envs[0])) <= 7
  {
    RankAfter(envs, |envs| - 1);
  }

  /** A run whose last environment is refused too has used up a round less; so the one tried after
      seven refusals boots. */
  lemma SeventhFixBoots(envs: seq<Env>)
    requires IsRetryRun(envs)
    ensures AssertConfig(envs[|envs| - 1]).Some? ==> |envs| <= Rank(Blanks(envs[0]))
    ensures |envs| == 8 ==> AssertConfig(envs[7]) == None
  {
    var last := envs[|envs| - 1];
    RankAfter(envs, |envs| - 1);
    if AssertConfig(last).Some? {
      RefusalIsNameable(last);
      RankDrops(Blanks(last), Named(last));
    }
  }

  // ---------- seven refusals do happen ----------

  lemma SetFixes(env: Env, k: EnvKey, v: string)
    requires Tight(v)
    ensures Fixes(env, [k], env[k := v]) && NormEnv(env[k := v], k) == Some(v)
  {
    TrimOfTight("", v);
    assert "" + v == v;
    var fixed := env[k := v];
    assert NormEnv(fixed, k) == Some(v);
    forall other | other !in [k] ensures NormEnv(fixed, other) == NormEnv(env, other) {
    }
  }

  function SetPartners(env: Env, v: string): Env { env[S3_ACCESS_KEY := v][S3_SECRET_KEY := v][S3_BUCKET := v] }

  lemma SetPartnersFixes(env: Env, v: string)
    requires Tight(v)
    ensures Fixes(env, PARTNER_KEYS, SetPartners(env, v))
  {
    TrimOfTight("", v);
    assert "" + v == v;
  }

  /** Production, over https. */
  predicate Strict(env: Env) {
    && !IsK8s(env) && Reads(env, NODE_ENV, "production")
    && (IsBlank(env, INGRESS_BASE_URL) || IsHttps(env))
  }

  /** What is refused in a strict environment whose partner keys are all blank or all set. */
  function StrictMissing(blanks: set<EnvKey>): seq<EnvKey> {
    if S3_ENDPOINT in blanks then [S3_ENDPOINT]
    else if PARTNERS <= blanks then PARTNER_KEYS
    else if OTEL_EXPORTER_OTLP_ENDPOINT in blanks then [OTEL_EXPORTER_OTLP_ENDPOINT]
    else if INGRESS_BASE_URL in blanks then [INGRESS_BASE_URL]
    else if INGRESS_TLS_CERT_PATH in blanks then [INGRESS_TLS_CERT_PATH]
    else if DATABASE_URL in blanks then [DATABASE_URL]
    else if SMTP_HOST in blanks then [SMTP_HOST]
    else []
  }

  lemma StrictRefusal(env: Env, blanks: set<EnvKey>)
    requires Strict(env) && blanks == Blanks(env) && (PARTNERS <= blanks || PARTNERS !! blanks)
    ensures AssertConfig(env) == None <==> StrictMissing(blanks) == []
    ensures AssertConfig(env).Some? ==> AssertConfig(env).value.missing == StrictMissing(blanks)
  {
    MatrixUnrolled(env);
    StorageRowIff(env);
    SentinelNeverDecides(env);
    if PARTNERS <= blanks { AllBlank(env, PARTNER_KEYS); }
  }

  lemma {:induction false} AllBlank(env: Env, keys: seq<EnvKey>)
    requires forall k :: k in keys ==> IsBlank(env, k)
    ensures Filter(env, keys) == keys
  {
    if keys != [] { AllBlank(env, keys[1..]); }
  }

  /** The environments of a run that is refused seven times. */
  function Retry(n: nat): Env
    requires n <= 7
  {
    if n == 0 then map[NODE_ENV := "production"]
    else
      var env := Retry(n - 1);
      if n == 1 then env[S3_ENDPOINT := "x"]
      else if n == 2 then SetPartners(env, "x")
      else if n == 3 then env[OTEL_EXPORTER_OTLP_ENDPOINT := "x"]
      else if n == 4 then env[INGRESS_BASE_URL := "https://x"]
      else if n == 5 then env[INGRESS_TLS_CERT_PATH := "x"]
      else if n == 6 then env[DATABASE_URL := "x"]
      else env[SMTP_HOST := "x"]
  }

  function NamedAt(n: nat): seq<EnvKey>
    requires n < 7
  {
    if n == 0 then [S3_ENDPOINT]
    else if n == 1 then PARTNER_KEYS
    else if n == 2 then [OTEL_EXPORTER_OTLP_ENDPOINT]
    else if n == 3 then [INGRESS_BASE_URL]
    else if n == 4 then [INGRESS_TLS_CERT_PATH]
    else if n == 5 then [DATABASE_URL]
    else [SMTP_HOST]
  }

  function SetOf(keys: seq<EnvKey>): set<EnvKey> { set k: EnvKey | k in keys }

  /** The keys still blank after n rounds. */
  function BlankAt(n: nat): set<EnvKey>
    requires n <= 7
  {
    if n == 0 then MATRIX_KEYS
    else if n == 1 then MATRIX_KEYS - {S3_ENDPOINT}
    else if n == 2 then {OTEL_EXPORTER_OTLP_ENDPOINT, INGRESS_BASE_URL, INGRESS_TLS_CERT_PATH, DATABASE_URL, SMTP_HOST}
    else if n == 3 then {INGRESS_BASE_URL, INGRESS_TLS_CERT_PATH, DATABASE_URL, SMTP_HOST}
    else if n == 4 then {INGRESS_TLS_CERT_PATH, DATABASE_URL, SMTP_HOST}
    else if n == 5 then {DATABASE_URL, SMTP_HOST}
    else if n == 6 then {SMTP_HOST}
    else {}
  }

  lemma BlankAtStep(n: nat)
    requires n < 7
    ensures BlankAt(n + 1) == BlankAt(n) - SetOf(NamedAt(n))
  {
  }

  lemma FixedBlanks(env: Env, missing: seq<EnvKey>, fixed: Env)
    requires Fixes(env, missing, fixed)
    ensures Blanks(fixed) == Blanks(env) - SetOf(missing)
  {
  }

  lemma StrictKept(env: Env, missing: seq<EnvKey>, fixed: Env)
    requires Strict(env) && Fixes(env, missing, fixed)
    requires NODE_ENV !in missing && OPENWHISPR_DEPLOYMENT_MODE !in missing
    requires INGRESS_BASE_URL in missing ==> IsHttps(fixed)
    ensures Strict(fixed)
  {
  }

  lemma RetryFixes(n: nat)
    requires n < 7
    ensures Fixes(Retry(n), NamedAt(n), Retry(n + 1))
  {
    var env := Retry(n);
    if n == 1 {
      SetPartnersFixes(env, "x");
    } else {
      SetFixes(env, NamedAt(n)[0], if n == 3 then "https://x" else "x");
    }
  }

  lemma ProductionReads(env: Env)
    requires NormEnv(env, NODE_ENV) == Some("production")
    ensures Reads(env, NODE_ENV, "production")
  {
  }

  lemma RetryStart()
    ensures Strict(Retry(0)) && Blanks(Retry(0)) == BlankAt(0)
  {
    var none: Env := map[];
    SetFixes(none, NODE_ENV, "production");
    assert Retry(0) == none[NODE_ENV := "production"];
    ProductionReads(Retry(0));
  }

  lemma HttpsAtFour()
    ensures IsHttps(Retry(4))
  {
    SetFixes(Retry(3), INGRESS_BASE_URL, "https://x");
    assert "https://x"[..8] == "https://";
  }

  lemma {:induction false} RetryState(n: nat)
    requires n <= 7
    ensures Strict(Retry(n)) && Blanks(Retry(n)) == BlankAt(n)
  {
    if n == 0 {
      RetryStart();
    } else {
      RetryState(n - 1);
      RetryFixes(n - 1);
      if n == 4 { HttpsAtFour(); }
      BlankAtStep(n - 1);
      FixedBlanks(Retry(n - 1), NamedAt(n - 1), Retry(n));
      StrictStep(Retry(n - 1), Retry(n), n - 1);
    }
  }

  lemma StrictStep(env: Env, fixed: Env, n: nat)
    requires n < 7 && Strict(env) && Fixes(env, NamedAt(n), fixed) && (n == 3 ==> IsHttps(fixed))
    ensures Strict(fixed)
  {
    StrictKept(env, NamedAt(n), fixed);
  }

  lemma NamedAtIsMissing(n: nat)
    requires n <= 7
    ensures PARTNERS <= BlankAt(n) || PARTNERS !! BlankAt(n)
    ensures StrictMissing(BlankAt(n)) == if n < 7 then NamedAt(n) else []
  {
  }

  lemma RetryRefused(n: nat)
    requires n <= 7
    ensures n < 7 ==> AssertConfig(Retry(n)).Some? && AssertConfig(Retry(n)).value.missing == NamedAt(n)
    ensures n == 7 ==> AssertConfig(Retry(n)) == None
  {
    RetryState(n);
    NamedAtIsMissing(n);
    StrictRefusal(Retry(n), BlankAt(n));
  }

  /** The bound is met: a bare production environment behind https is refused seven times. */
  lemma SevenRefusalsAreReached(envs: seq<Env>)
    requires |envs| == 8 && forall n :: 0 <= n <= 7 ==> envs[n] == Retry(n)
    ensures IsRetryRun(envs) && AssertConfig(envs[7]) == None
  {
    forall n | 0 <= n < 7
      ensures AssertConfig(envs[n]).Some? && Fixes(envs[n], AssertConfig(envs[n]).value.missing, envs[n + 1])
    {
      RetryRefused(n);
      RetryFixes(n);
    }
    RetryRefused(7);
  }

  // ---------- the guard, told by the values themselves ----------

  predicate Unset(env: Env, k: EnvKey) { k !in env || AllSpace(env[k]) }

  lemma BlankIff(env: Env, k: EnvKey)
    ensures IsBlank(env, k) <==> Unset(env, k)
  {
    if k in env { TrimIsEmpty(env[k]); }
  }

  lemma TrimIsEmpty(s: string)
    ensures Trim(s) == "" <==> AllSpace(s)
  {
    var i := SkipSpace(s, 0);
    if i < |s| {
      var j := DropSpace(s, i, |s|);
      assert !IsSpace(s[i]);
    }
  }

  /** The mode is k8s, in any case; the Kelvin sign lowers to a k too. */
  predicate InK8s(env: Env) {
    && OPENWHISPR_DEPLOYMENT_MODE in env
    && var v := Trim(env[OPENWHISPR_DEPLOYMENT_MODE]);
       |v| == 3 && (v[0] == 'k' || v[0] == 'K' || v[0] == '\U{212A}') && v[1] == '8' && (v[2] == 's' || v[2] == 'S')
  }

  predicate InProduction(env: Env) {
    && NODE_ENV in env
    && var v := Trim(env[NODE_ENV]);
       |v| == 10 && forall i :: 0 <= i < 10 ==> v[i] == "production"[i] || v[i] == "PRODUCTION"[i]
  }

  predicate OverHttps(env: Env) { INGRESS_BASE_URL in env && "https://" <= Trim(env[INGRESS_BASE_URL]) }

  lemma K8sIff(env: Env)
    ensures IsK8s(env) <==> InK8s(env)
  {
    LowersToK8s("k8s");
  }

  lemma LowersToK8s(word: string)
    requires word == "k8s"
    ensures forall v :: LowersTo(v, word) <==>
      |v| == 3 && (v[0] == 'k' || v[0] == 'K' || v[0] == '\U{212A}') && v[1] == '8' && (v[2] == 's' || v[2] == 'S')
  {
  }

  lemma LowersToLetter(c: char, small: char, large: char)
    requires 'a' <= small <= 'z' && small != 'k' && large as int == small as int - 32
    ensures LowerChar(c) == small <==> c == small || c == large
  {
  }

  lemma ProductionLetters(i: nat)
    requires i < 10
    ensures var small, large := "production"[i], "PRODUCTION"[i];
            'a' <= small <= 'z' && small != 'k' && large as int == small as int - 32
  {
  }

  lemma ProductionIff(env: Env)
    ensures Reads(env, NODE_ENV, "production") <==> InProduction(env)
  {
    if NODE_ENV in env {
      var v := Trim(env[NODE_ENV]);
      forall i | 0 <= i < |v| && i < 10
        ensures LowerChar(v[i]) == "production"[i] <==> v[i] == "production"[i] || v[i] == "PRODUCTION"[i]
      {
        ProductionLetters(i);
        LowersToLetter(v[i], "production"[i], "PRODUCTION"[i]);
      }
    }
  }

  lemma HttpsIff(env: Env)
    ensures IsHttps(env) <==> OverHttps(env)
  {
  }

  /** What an overlay asks for and does not find. */
  predicate Asks(env: Env, overlay: Overlay, k: EnvKey) {
    && Unset(env, k)
    && match overlay
       case Storage =>
         if Unset(env, S3_ENDPOINT) then k == S3_ENDPOINT
         else k == S3_ACCESS_KEY || k == S3_SECRET_KEY || k == S3_BUCKET
       case Observability => k == OTEL_EXPORTER_OTLP_ENDPOINT
       case Ingress => k == INGRESS_BASE_URL || (k == INGRESS_TLS_CERT_PATH && OverHttps(env))
       case PgBouncer => k == DATABASE_URL
       case DevTools => k == SMTP_HOST && InProduction(env)
  }

  ghost predicate Content(env: Env, overlay: Overlay) { forall k :: !Asks(env, overlay, k) }

  function Turn(overlay: Overlay): nat {
    match overlay
    case Storage => 0
    case Observability => 1
    case Ingress => 2
    case PgBouncer => 3
    case DevTools => 4
  }

  /** The row says what the overlay asks for. */
  ghost predicate Answers(row: Option<Record>, env: Env, overlay: Overlay) {
    match row
    case None => Content(env, overlay)
    case Some(r) =>
      r.overlay == overlay && !Content(env, overlay) && forall k :: k in r.missing <==> Asks(env, overlay, k)
  }

  lemma StorageAnswers(env: Env)
    ensures Answers(StorageRow(env), env, Storage)
  {
    BlankIff(env, S3_ENDPOINT);
    StorageRowIff(env);
    forall k ensures k in Filter(env, PARTNER_KEYS) <==> k in PARTNER_KEYS && Unset(env, k) {
      FilterHoldsTheBlanks(env, PARTNER_KEYS, k);
      BlankIff(env, k);
    }
    if StorageRow(env).Some? {
      var missing := StorageRow(env).value.missing;
      assert missing[0] in missing && Asks(env, Storage, missing[0]);
    }
  }

  lemma OneKeyAnswers(row: Option<Record>, env: Env, overlay: Overlay, k: EnvKey)
    requires row == if Unset(env, k) then Some(Record(overlay, [k])) else None
    requires forall j :: Asks(env, overlay, j) <==> j == k && Unset(env, k)
    ensures Answers(row, env, overlay)
  {
    if row.Some? { assert Asks(env, overlay, k); }
  }

  lemma IngressAnswers(env: Env)
    ensures Answers(IngressRow(env), env, Ingress)
  {
    HttpsIff(env);
    BlankIff(env, INGRESS_BASE_URL);
    BlankIff(env, INGRESS_TLS_CERT_PATH);
    if Unset(env, INGRESS_BASE_URL) {
      assert Asks(env, Ingress, INGRESS_BASE_URL);
      UnsetIsNotHttps(env);
    } else if OverHttps(env) && Unset(env, INGRESS_TLS_CERT_PATH) {
      assert Asks(env, Ingress, INGRESS_TLS_CERT_PATH);
    }
  }

  lemma UnsetIsNotHttps(env: Env)
    requires Unset(env, INGRESS_BASE_URL)
    ensures !OverHttps(env)
  {
    if INGRESS_BASE_URL in env { TrimIsEmpty(env[INGRESS_BASE_URL]); }
  }

  lemma DevToolsAnswers(env: Env)
    ensures Answers(DevToolsRow(env), env, DevTools)
  {
    ProductionIff(env);
    BlankIff(env, SMTP_HOST);
    if InProduction(env) { OneKeyAnswers(DevToolsRow(env), env, DevTools, SMTP_HOST); }
  }

  /** The record of the first row that has one. */
  lemma FirstAnswers(env: Env, r: Option<Record>, s: Option<Record>, o: Option<Record>, i: Option<Record>,
                     p: Option<Record>, d: Option<Record>)
    requires Answers(s, env, Storage) && Answers(o, env, Observability) && Answers(i, env, Ingress)
    requires Answers(p, env, PgBouncer) && Answers(d, env, DevTools)
    requires r == if s.Some? then s else if o.Some? then o else if i.Some? then i else if p.Some? then p else d
    ensures r == None <==> forall x :: Content(env, x)
    ensures r.Some? ==> Answers(r, env, r.value.overlay) && forall x :: Turn(x) < Turn(r.value.overlay) ==> Content(env, x)
  {
    forall x | r == None ensures Content(env, x) {
      match x {
        case Storage =>
        case Observability =>
        case Ingress =>
        case PgBouncer =>
        case DevTools =>
      }
    }
  }

  /** The guard lets the program boot in k8s, or if no overlay asks for anything; otherwise it names
      the first overlay that does and exactly what that overlay asks for. */
  lemma GuardIs(env: Env)
    ensures AssertConfig(env) == None <==> InK8s(env) || forall o :: Content(env, o)
    ensures AssertConfig(env).Some? ==>
      var r := AssertConfig(env).value;
      && !Content(env, r.overlay) && (forall o :: Turn(o) < Turn(r.overlay) ==> Content(env, o))
      && forall k :: k in r.missing <==> Asks(env, r.overlay, k)
  {
    MatrixUnrolled(env);
    K8sIff(env);
    StorageAnswers(env);
    BlankIff(env, OTEL_EXPORTER_OTLP_ENDPOINT);
    SentinelNeverDecides(env);
    OneKeyAnswers(ObservabilityRow(env), env, Observability, OTEL_EXPORTER_OTLP_ENDPOINT);
    IngressAnswers(env);
    BlankIff(env, DATABASE_URL);
    OneKeyAnswers(PgBouncerRow(env), env, PgBouncer, DATABASE_URL);
    DevToolsAnswers(env);
    FirstAnswers(env, FirstRecord(BYOK_MATRIX, env, 0), StorageRow(env), ObservabilityRow(env), IngressRow(env),
                 PgBouncerRow(env), DevToolsRow(env));
  }
}
