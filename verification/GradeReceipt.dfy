/** Signed grade receipts: what an accepted telemetry row proves. */
module GradeReceipt {
  import opened Wrappers
  import opened Decimals
  import opened PathText

  datatype Field =
    | Protocol | KeyId | Nonce | CodeSha | TestSha | CandStdoutSha | ExitCode | CandRc | SupChildRc | RunnerRc
    | PytestPassed | PytestFailed | CollectErrors | PytestStatus | HarnessSha

  /** The signed fields, in the order in which they are signed. */
  const SIGNED_FIELDS := [
    Protocol, KeyId, Nonce, CodeSha, TestSha, CandStdoutSha, ExitCode, CandRc, SupChildRc, RunnerRc,
    PytestPassed, PytestFailed, CollectErrors, PytestStatus, HarnessSha]

  const PROTOCOL := "AGI_V8_GRADE_RECEIPT_V1"
  const MAC_DOMAIN := "agi_v8/grade_receipt/v1"

  /** A JSON value; a float carries its printed form, and its value when it is finite. */
  datatype Json =
    | JNull
    | JBool(b: bool)
    | JInt(i: int)
    | JFloat(repr: string, value: Option<real>)
    | JStr(s: string)
    | JOther(text: string)

  datatype Receipt = Receipt(fields: map<Field, Json>, mac: Json)

  datatype Key = KExitCode | KRuffWarnings | KRuffErrors | KMypyErrors | KPytestPassed | KPytestFailed | KPytestStatus
               | KWallClock | KPeakRss

  const INT_KEYS := [KExitCode, KRuffWarnings, KRuffErrors, KMypyErrors, KPytestPassed, KPytestFailed]
  const FLOAT_KEYS := [KWallClock, KPeakRss]

  /** The last stdout line as a JSON object; a receipt that is no object counts as missing. */
  datatype Envelope = Envelope(values: map<Key, Json>, receipt: Option<Receipt>)

  /** One call's own nonce, digests of its inputs, keys by id and reviewed harness digests. */
  datatype Context = Context(nonce: string, codeSha: string, testSha: string, keys: map<string, string>,
                             allowlist: set<string>)

  /** Library functions: the MAC, and Python's int(), float() and lower() of a text. */
  datatype Library = Library(mac: (string, string) -> string, lower: string -> string,
                             toInt: string -> Option<int>, toFloat: string -> Option<real>)

  function Get(e: Envelope, k: Key): Json { if k in e.values then e.values[k] else JNull }

  /** str(value) */
  function Str(v: Json): string {
    match v
    case JNull => "None"
    case JBool(b) => if b then "True" else "False"
    case JInt(i) => Decimal(i)
    case JFloat(repr, _) => repr
    case JStr(s) => s
    case JOther(text) => text
  }

  /** Every field has a value. */
  predicate Complete(values: map<Field, string>) { forall f: Field :: f in values }

  /** Where a field stands in the signed order. */
  function Position(f: Field): nat {
    match f
    case Protocol => 0 case KeyId => 1 case Nonce => 2 case CodeSha => 3 case TestSha => 4
    case CandStdoutSha => 5 case ExitCode => 6 case CandRc => 7 case SupChildRc => 8 case RunnerRc => 9
    case PytestPassed => 10 case PytestFailed => 11 case CollectErrors => 12 case PytestStatus => 13
    case HarnessSha => 14
  }

  lemma Listed(f: Field)
    ensures Position(f) < |SIGNED_FIELDS| && SIGNED_FIELDS[Position(f)] == f
  {
  }

  lemma ListedAt(i: nat)
    requires i < |SIGNED_FIELDS|
    ensures forall f :: Position(f) == i <==> f == SIGNED_FIELDS[i]
  {
    forall f ensures Position(f) == i <==> f == SIGNED_FIELDS[i] {
      Listed(f);
      if f == SIGNED_FIELDS[i] { ListedOnce(f, i); }
    }
  }

  lemma ListedOnce(f: Field, i: nat)
    requires i < |SIGNED_FIELDS| && f == SIGNED_FIELDS[i]
    ensures Position(f) == i
  {
    assert SIGNED_FIELDS == [
      Protocol, KeyId, Nonce, CodeSha, TestSha, CandStdoutSha, ExitCode, CandRc, SupChildRc, RunnerRc,
      PytestPassed, PytestFailed, CollectErrors, PytestStatus, HarnessSha];
  }

  /** The signed values in order: what the MAC covers. */
  function InOrder(values: map<Field, string>): seq<string>
    requires Complete(values)
  {
    seq(|SIGNED_FIELDS|, i requires 0 <= i < |SIGNED_FIELDS| => values[SIGNED_FIELDS[i]])
  }

  function MacPayload(values: map<Field, string>): string
    requires Complete(values)
  {
    MAC_DOMAIN + "\n" + Join(InOrder(values), '\n')
  }

  predicate IsLowerHex(c: char) { '0' <= c <= '9' || 'a' <= c <= 'f' }
  predicate IsHex(s: string, n: nat) { |s| == n && forall i :: 0 <= i < n ==> IsLowerHex(s[i]) }

  datatype Refusal = Missing | Malformed | ProtocolMismatch | KeyUnknown | MacMismatch | ContextMismatch
                   | EnvelopeMismatch | NotAllowlisted

  const BOUND_KEYS :=
    [(KExitCode, ExitCode), (KPytestPassed, PytestPassed), (KPytestFailed, PytestFailed), (KPytestStatus, PytestStatus)]

  predicate AllTexts(r: Receipt) { forall f: Field :: f in r.fields && r.fields[f].JStr? }

  function Texts(r: Receipt): (m: map<Field, string>)
    requires AllTexts(r)
    ensures Complete(m)
  {
    map f: Field | f in r.fields :: r.fields[f].s
  }

  predicate Bound(e: Envelope, values: map<Field, string>)
    requires Complete(values)
  {
    && Str(Get(e, KExitCode)) == values[ExitCode] && Str(Get(e, KPytestPassed)) == values[PytestPassed]
    && Str(Get(e, KPytestFailed)) == values[PytestFailed] && Str(Get(e, KPytestStatus)) == values[PytestStatus]
  }

  /** Everything an authenticated row satisfies. */
  predicate Authentic(e: Envelope, ctx: Context, lib: Library) {
    && e.receipt.Some? && AllTexts(e.receipt.value)
    && var r, v := e.receipt.value, Texts(e.receipt.value);
    && r.mac.JStr? && IsHex(r.mac.s, 64)
    && v[Protocol] == PROTOCOL && v[KeyId] in ctx.keys
    && lib.mac(ctx.keys[v[KeyId]], MacPayload(v)) == r.mac.s
    && IsHex(v[Nonce], 32) && v[Nonce] == ctx.nonce
    && v[CodeSha] == ctx.codeSha && v[TestSha] == ctx.testSha
    && Bound(e, v)
    && lib.lower(v[HarnessSha]) in ctx.allowlist
  }

  /** The first check that a row fails: the MAC comes before the nonce. */
  function RefusalOf(e: Envelope, ctx: Context, lib: Library): Option<Refusal> {
    if e.receipt.None? then Some(Missing)
    else if !AllTexts(e.receipt.value) then Some(Malformed)
    else
      var v, mac := Texts(e.receipt.value), e.receipt.value.mac;
      if !mac.JStr? || !IsHex(mac.s, 64) then Some(Malformed)
      else if v[Protocol] != PROTOCOL then Some(ProtocolMismatch)
      else if v[KeyId] !in ctx.keys then Some(KeyUnknown)
      else if lib.mac(ctx.keys[v[KeyId]], MacPayload(v)) != mac.s then Some(MacMismatch)
      else if !IsHex(v[Nonce], 32) then Some(Malformed)
      else if v[Nonce] != ctx.nonce || v[CodeSha] != ctx.codeSha || v[TestSha] != ctx.testSha then Some(ContextMismatch)
      else if !Bound(e, v) then Some(EnvelopeMismatch)
      else if lib.lower(v[HarnessSha]) !in ctx.allowlist then Some(NotAllowlisted)
      else None
  }

  lemma RefusedUnlessAuthentic(e: Envelope, ctx: Context, lib: Library)
    ensures RefusalOf(e, ctx, lib).None? <==> Authentic(e, ctx, lib)
  {
  }

  /** None when the row is authenticated, else the named refusal, in the order of the checks. */
  method VerifyGradeReceipt(e: Envelope, ctx: Context, lib: Library) returns (refusal: Option<Refusal>)
    ensures refusal == RefusalOf(e, ctx, lib)
    ensures refusal.None? <==> Authentic(e, ctx, lib)
    ensures refusal.None? <==> PassesEveryCheck(e, ctx, lib)
    ensures refusal.Some? ==> NamesItsReason(e, ctx, lib, refusal.value)
  {
    EveryCheck(e, ctx, lib);
    RefusalNamesReason(e, ctx, lib);
    if e.receipt.None? { return Some(Missing); }
    var r := e.receipt.value;
    var collected := CollectTexts(r);
    if collected.None? { return Some(Malformed); }
    var values := collected.value;
    if !r.mac.JStr? || !IsHex(r.mac.s, 64) { return Some(Malformed); }
    if values[Protocol] != PROTOCOL { return Some(ProtocolMismatch); }
    if values[KeyId] !in ctx.keys { return Some(KeyUnknown); }
    if lib.mac(ctx.keys[values[KeyId]], MacPayload(values)) != r.mac.s { return Some(MacMismatch); }
    if !IsHex(values[Nonce], 32) { return Some(Malformed); }
    if values[Nonce] != ctx.nonce { return Some(ContextMismatch); }
    if values[CodeSha] != ctx.codeSha { return Some(ContextMismatch); }
    if values[TestSha] != ctx.testSha { return Some(ContextMismatch); }
    RefusedUnlessAuthentic(e, ctx, lib);
    var bound := CompareBound(e, values);
    if !bound { return Some(EnvelopeMismatch); }
    if lib.lower(values[HarnessSha]) !in ctx.allowlist { return Some(NotAllowlisted); }
    refusal := None;
  }

  function Signed(r: Receipt, f: Field): string { if f in r.fields && r.fields[f].JStr? then r.fields[f].s else "" }

  predicate HexDigits(s: string) { forall i :: 0 <= i < |s| ==> s[i] in "0123456789abcdef" }

  /** Every check, on the receipt's own fields and the envelope's own values. */
  ghost predicate PassesEveryCheck(e: Envelope, ctx: Context, lib: Library) {
    && e.receipt.Some?
    && (forall f: Field :: f in e.receipt.value.fields && e.receipt.value.fields[f].JStr?)
    && var r := e.receipt.value;
    && r.mac.JStr? && |r.mac.s| == 64 && HexDigits(r.mac.s)
    && Signed(r, Protocol) == "AGI_V8_GRADE_RECEIPT_V1" && Signed(r, KeyId) in ctx.keys
    && lib.mac(ctx.keys[Signed(r, KeyId)], "agi_v8/grade_receipt/v1" + "\n" + Join(SignedInOrder(r), '\n')) == r.mac.s
    && |Signed(r, Nonce)| == 32 && HexDigits(Signed(r, Nonce)) && Signed(r, Nonce) == ctx.nonce
    && Signed(r, CodeSha) == ctx.codeSha && Signed(r, TestSha) == ctx.testSha
    && Str(Get(e, KExitCode)) == Signed(r, ExitCode) && Str(Get(e, KPytestPassed)) == Signed(r, PytestPassed)
    && Str(Get(e, KPytestFailed)) == Signed(r, PytestFailed) && Str(Get(e, KPytestStatus)) == Signed(r, PytestStatus)
    && lib.lower(Signed(r, HarnessSha)) in ctx.allowlist
  }

  /** The signed texts, protocol first and harness digest last. */
  function SignedInOrder(r: Receipt): seq<string> {
    [Signed(r, Protocol), Signed(r, KeyId), Signed(r, Nonce), Signed(r, CodeSha), Signed(r, TestSha),
     Signed(r, CandStdoutSha), Signed(r, ExitCode), Signed(r, CandRc), Signed(r, SupChildRc), Signed(r, RunnerRc),
     Signed(r, PytestPassed), Signed(r, PytestFailed), Signed(r, CollectErrors), Signed(r, PytestStatus),
     Signed(r, HarnessSha)]
  }

  /** The MAC that the receipt should carry. */
  function DueMac(r: Receipt, ctx: Context, lib: Library): string
    requires Signed(r, KeyId) in ctx.keys
  {
    lib.mac(ctx.keys[Signed(r, KeyId)], "agi_v8/grade_receipt/v1" + "\n" + Join(SignedInOrder(r), '\n'))
  }

  /** What each refusal says: its own check fails, and those before it passed. */
  ghost predicate NamesItsReason(e: Envelope, ctx: Context, lib: Library, refusal: Refusal) {
    if e.receipt.None? then refusal == Missing
    else
      var r := e.receipt.value;
      match refusal
      case Missing => false
      case Malformed =>
        || (exists f: Field :: f !in r.fields || !r.fields[f].JStr?)
        || !r.mac.JStr? || |r.mac.s| != 64 || !HexDigits(r.mac.s)
        || |Signed(r, Nonce)| != 32 || !HexDigits(Signed(r, Nonce))
      case ProtocolMismatch => Signed(r, Protocol) != "AGI_V8_GRADE_RECEIPT_V1"
      case KeyUnknown => Signed(r, Protocol) == "AGI_V8_GRADE_RECEIPT_V1" && Signed(r, KeyId) !in ctx.keys
      case MacMismatch => Signed(r, KeyId) in ctx.keys && JStr(DueMac(r, ctx, lib)) != r.mac
      case ContextMismatch =>
        && Signed(r, KeyId) in ctx.keys && JStr(DueMac(r, ctx, lib)) == r.mac
        && (|| Signed(r, Nonce) != ctx.nonce || Signed(r, CodeSha) != ctx.codeSha || Signed(r, TestSha) != ctx.testSha)
      case EnvelopeMismatch =>
        && Signed(r, Nonce) == ctx.nonce && Signed(r, CodeSha) == ctx.codeSha && Signed(r, TestSha) == ctx.testSha
        && (|| Str(Get(e, KExitCode)) != Signed(r, ExitCode) || Str(Get(e, KPytestPassed)) != Signed(r, PytestPassed)
            || Str(Get(e, KPytestFailed)) != Signed(r, PytestFailed)
            || Str(Get(e, KPytestStatus)) != Signed(r, PytestStatus))
      case NotAllowlisted =>
        && Str(Get(e, KExitCode)) == Signed(r, ExitCode) && lib.lower(Signed(r, HarnessSha)) !in ctx.allowlist
  }

  lemma RefusalNamesReason(e: Envelope, ctx: Context, lib: Library)
    ensures RefusalOf(e, ctx, lib).Some? ==> NamesItsReason(e, ctx, lib, RefusalOf(e, ctx, lib).value)
  {
    if e.receipt.Some? && AllTexts(e.receipt.value) {
      var r := e.receipt.value;
      PayloadSpelled(r);
      if r.mac.JStr? { HexMeans(r.mac.s, 64); }
      HexMeans(Signed(r, Nonce), 32);
    }
  }

  lemma HexMeans(s: string, n: nat)
    ensures IsHex(s, n) <==> |s| == n && HexDigits(s)
  {
    forall c: char ensures IsLowerHex(c) <==> c in "0123456789abcdef" { HexCharMeans(c); }
  }

  lemma HexCharMeans(c: char)
    ensures IsLowerHex(c) <==> c in "0123456789abcdef"
  {
    var s := "0123456789abcdef";
    if IsLowerHex(c) {
      var k := if c <= '9' then c as int - '0' as int else c as int - 'a' as int + 10;
      assert s[k] == c;
    }
  }

  lemma PayloadSpelled(r: Receipt)
    requires AllTexts(r)
    ensures MacPayload(Texts(r)) == "agi_v8/grade_receipt/v1" + "\n" + Join(SignedInOrder(r), '\n')
    ensures forall f: Field :: Texts(r)[f] == Signed(r, f)
  {
    assert InOrder(Texts(r)) == SignedInOrder(r);
  }

  lemma EveryCheck(e: Envelope, ctx: Context, lib: Library)
    ensures Authentic(e, ctx, lib) <==> PassesEveryCheck(e, ctx, lib)
  {
    if e.receipt.Some? && AllTexts(e.receipt.value) {
      var r := e.receipt.value;
      PayloadSpelled(r);
      if r.mac.JStr? { HexMeans(r.mac.s, 64); }
      HexMeans(Signed(r, Nonce), 32);
    }
  }

  method CollectTexts(r: Receipt) returns (values: Option<map<Field, string>>)
    ensures values.Some? <==> AllTexts(r)
    ensures values.Some? ==> values.value == Texts(r)
  {
    var got: map<Field, string> := map[];
    for i := 0 to |SIGNED_FIELDS|
      invariant forall f :: f in got <==> Position(f) < i
      invariant forall f :: f in got ==> f in r.fields && r.fields[f].JStr? && got[f] == r.fields[f].s
    {
      ListedAt(i);
      var f := SIGNED_FIELDS[i];
      if f !in r.fields || !r.fields[f].JStr? { return None; }
      got := got[f := r.fields[f].s];
    }
    forall f: Field ensures f in got { Listed(f); }
    values := Some(got);
  }

  /** str(envelope value) against the signed text, key by key. */
  method CompareBound(e: Envelope, values: map<Field, string>) returns (bound: bool)
    requires Complete(values)
    ensures bound == Bound(e, values)
  {
    for i := 0 to |BOUND_KEYS|
      invariant forall j :: 0 <= j < i ==> Str(Get(e, BOUND_KEYS[j].0)) == values[BOUND_KEYS[j].1]
    {
      if Str(Get(e, BOUND_KEYS[i].0)) != values[BOUND_KEYS[i].1] {
        BoundAt(e, values, i);
        return false;
      }
    }
    BoundByAll(e, values);
    bound := true;
  }

  lemma BoundAt(e: Envelope, values: map<Field, string>, i: nat)
    requires Complete(values)
    requires i < |BOUND_KEYS|
    ensures Bound(e, values) ==> Str(Get(e, BOUND_KEYS[i].0)) == values[BOUND_KEYS[i].1]
  {
  }

  lemma BoundByAll(e: Envelope, values: map<Field, string>)
    requires Complete(values)
    requires forall j :: 0 <= j < |BOUND_KEYS| ==> Str(Get(e, BOUND_KEYS[j].0)) == values[BOUND_KEYS[j].1]
    ensures Bound(e, values)
  {
    assert BOUND_KEYS[0] == (KExitCode, ExitCode) && BOUND_KEYS[1] == (KPytestPassed, PytestPassed);
    assert BOUND_KEYS[2] == (KPytestFailed, PytestFailed) && BOUND_KEYS[3] == (KPytestStatus, PytestStatus);
  }

  // ---------------------------------------------------------------- envelope

  /** int(value), where a bool and whatever int() refuses give nothing. */
  function AsInt(v: Json, lib: Library): Option<int> {
    match v
    case JInt(i) => Some(i)
    case JFloat(_, Some(x)) => Some(if x < 0.0 then -((-x).Floor) else x.Floor)
    case JStr(s) => lib.toInt(s)
    case _ => None
  }

  function AsFloat(v: Json, lib: Library): Option<real> {
    match v
    case JInt(i) => Some(i as real)
    case JFloat(_, x) => x
    case JStr(s) => lib.toFloat(s)
    case _ => None
  }

  datatype Row = Row(ints: map<Key, int>, floats: map<Key, real>, receiptVerified: bool)

  datatype StubReason = ContainerFailed | InvalidEnvelope | ReceiptUntrusted
  datatype Telemetry = Stub(reason: StubReason) | Measured(row: Row)

  predicate InBounds(ints: map<Key, int>, floats: map<Key, real>) {
    && KExitCode in ints && 0 <= ints[KExitCode] <= 255
    && (forall k :: k in ints && k != KExitCode ==> ints[k] >= 0)
    && (forall k :: k in floats ==> floats[k] >= 0.0)
  }

  predicate Readable(e: Envelope, lib: Library) {
    && (forall k :: k in INT_KEYS ==> AsInt(Get(e, k), lib).Some?)
    && (forall k :: k in FLOAT_KEYS ==> AsFloat(Get(e, k), lib).Some?)
  }

  function RowOf(e: Envelope, lib: Library, verified: bool): Row
    requires Readable(e, lib)
  {
    Row(map k | k in INT_KEYS :: AsInt(Get(e, k), lib).value,
        map k | k in FLOAT_KEYS :: AsFloat(Get(e, k), lib).value, verified)
  }

  /** A row is adopted only from a clean exit, an authentic envelope where a context is given, and bounded values. */
  function TelemetryOf(returncode: int, parsed: Option<Envelope>, ctx: Option<Context>, lib: Library): Telemetry {
    if returncode != 0 then Stub(ContainerFailed)
    else if parsed.None? then Stub(InvalidEnvelope)
    else if ctx.Some? && !Authentic(parsed.value, ctx.value, lib) then Stub(ReceiptUntrusted)
    else if !Readable(parsed.value, lib) then Stub(InvalidEnvelope)
    else
      var row := RowOf(parsed.value, lib, ctx.Some?);
      if InBounds(row.ints, row.floats) then Measured(row) else Stub(InvalidEnvelope)
  }

  method ParseEnvelope(returncode: int, parsed: Option<Envelope>, ctx: Option<Context>, lib: Library)
    returns (t: Telemetry)
    ensures t == TelemetryOf(returncode, parsed, ctx, lib)
    ensures returncode != 0 ==> t == Stub(ContainerFailed)
    ensures returncode == 0 && parsed.Some? && ctx.Some? && !PassesEveryCheck(parsed.value, ctx.value, lib) <==>
            t == Stub(ReceiptUntrusted)
    ensures t.Measured? <==>
            && returncode == 0 && parsed.Some?
            && (ctx.Some? ==> PassesEveryCheck(parsed.value, ctx.value, lib))
            && CountsReadAndBound(parsed.value, lib)
    ensures t.Measured? ==> CarriesValues(t.row, parsed.value, lib) && t.row.receiptVerified == ctx.Some?
  {
    if returncode != 0 { return Stub(ContainerFailed); }
    if parsed.None? { return Stub(InvalidEnvelope); }
    var e := parsed.value;
    if ctx.Some? {
      var refusal := VerifyGradeReceipt(e, ctx.value, lib);
      if refusal.Some? { return Stub(ReceiptUntrusted); }
    }
    var row := ReadRow(e, lib, ctx.Some?);
    t := if row.None? then Stub(InvalidEnvelope) else Measured(row.value);
  }

  /** The numbers of the row, read and bounded. */
  method ReadRow(e: Envelope, lib: Library, verified: bool) returns (row: Option<Row>)
    ensures row.Some? <==> CountsReadAndBound(e, lib)
    ensures row.Some? ==> CarriesValues(row.value, e, lib) && row.value.receiptVerified == verified
    ensures row == if Readable(e, lib) && InBounds(RowOf(e, lib, verified).ints, RowOf(e, lib, verified).floats)
                   then Some(RowOf(e, lib, verified)) else None
  {
    RowSpelled(e, lib, verified);
    var ints := ReadInts(e, lib);
    if ints.None? { return None; }
    var floats := ReadFloats(e, lib);
    if floats.None? { return None; }
    if ints.value[KExitCode] < 0 || ints.value[KExitCode] > 255 { return None; }
    if exists k :: k in ints.value && k != KExitCode && ints.value[k] < 0 { return None; }
    if exists k :: k in floats.value && floats.value[k] < 0.0 { return None; }
    row := Some(Row(ints.value, floats.value, verified));
  }

  /** An integer from 0 up, or up to 255 for the exit code. */
  predicate CountIn(v: Json, lib: Library, exitCode: bool) {
    AsInt(v, lib).Some? && AsInt(v, lib).value >= 0 && (exitCode ==> AsInt(v, lib).value <= 255)
  }

  predicate AmountIn(v: Json, lib: Library) { AsFloat(v, lib).Some? && AsFloat(v, lib).value >= 0.0 }

  /** All eight numbers read, and all are within their bounds. */
  predicate CountsReadAndBound(e: Envelope, lib: Library) {
    && CountIn(Get(e, KExitCode), lib, true) && CountIn(Get(e, KRuffWarnings), lib, false)
    && CountIn(Get(e, KRuffErrors), lib, false) && CountIn(Get(e, KMypyErrors), lib, false)
    && CountIn(Get(e, KPytestPassed), lib, false) && CountIn(Get(e, KPytestFailed), lib, false)
    && AmountIn(Get(e, KWallClock), lib) && AmountIn(Get(e, KPeakRss), lib)
  }

  /** The row holds the eight numbers of the envelope, and no others. */
  predicate CarriesValues(row: Row, e: Envelope, lib: Library) {
    && row.ints.Keys == {KExitCode, KRuffWarnings, KRuffErrors, KMypyErrors, KPytestPassed, KPytestFailed}
    && (forall k :: k in row.ints ==> AsInt(Get(e, k), lib) == Some(row.ints[k]))
    && row.floats.Keys == {KWallClock, KPeakRss}
    && (forall k :: k in row.floats ==> AsFloat(Get(e, k), lib) == Some(row.floats[k]))
  }

  lemma KeysSpelled(k: Key)
    ensures k in INT_KEYS <==> IsIntKey(k)
    ensures k in FLOAT_KEYS <==> IsFloatKey(k)
  {
    assert INT_KEYS == [KExitCode, KRuffWarnings, KRuffErrors, KMypyErrors, KPytestPassed, KPytestFailed];
    assert FLOAT_KEYS == [KWallClock, KPeakRss];
  }

  lemma ReadableSpelled(e: Envelope, lib: Library)
    ensures Readable(e, lib) <==>
            && AsInt(Get(e, KExitCode), lib).Some? && AsInt(Get(e, KRuffWarnings), lib).Some?
            && AsInt(Get(e, KRuffErrors), lib).Some? && AsInt(Get(e, KMypyErrors), lib).Some?
            && AsInt(Get(e, KPytestPassed), lib).Some? && AsInt(Get(e, KPytestFailed), lib).Some?
            && AsFloat(Get(e, KWallClock), lib).Some? && AsFloat(Get(e, KPeakRss), lib).Some?
  {
    forall k ensures k in INT_KEYS <==> IsIntKey(k) ensures k in FLOAT_KEYS <==> IsFloatKey(k) { KeysSpelled(k); }
  }

  predicate IsIntKey(k: Key) {
    k in {KExitCode, KRuffWarnings, KRuffErrors, KMypyErrors, KPytestPassed, KPytestFailed}
  }

  predicate IsFloatKey(k: Key) { k in {KWallClock, KPeakRss} }

  lemma RowCarries(e: Envelope, lib: Library, verified: bool)
    requires Readable(e, lib)
    ensures CarriesValues(RowOf(e, lib, verified), e, lib)
  {
    forall k ensures k in INT_KEYS <==> IsIntKey(k) ensures k in FLOAT_KEYS <==> IsFloatKey(k) { KeysSpelled(k); }
  }

  lemma BoundsSpelled(row: Row, e: Envelope, lib: Library)
    requires CarriesValues(row, e, lib)
    ensures InBounds(row.ints, row.floats) <==> CountsReadAndBound(e, lib)
  {
    assert forall k :: k in row.ints.Keys ==> AsInt(Get(e, k), lib) == Some(row.ints[k]);
    assert forall k :: k in row.floats.Keys ==> AsFloat(Get(e, k), lib) == Some(row.floats[k]);
  }

  lemma RowSpelled(e: Envelope, lib: Library, verified: bool)
    ensures Readable(e, lib) ==> CarriesValues(RowOf(e, lib, verified), e, lib)
    ensures Readable(e, lib) && InBounds(RowOf(e, lib, verified).ints, RowOf(e, lib, verified).floats) <==>
            CountsReadAndBound(e, lib)
  {
    if Readable(e, lib) {
      RowCarries(e, lib, verified);
      BoundsSpelled(RowOf(e, lib, verified), e, lib);
    } else {
      ReadableSpelled(e, lib);
    }
  }

  /** How a value reads as an integer: a finite float is cut toward zero, a bool is no number. */
  lemma AsIntSpelled(v: Json, lib: Library)
    ensures v.JInt? ==> AsInt(v, lib) == Some(v.i)
    ensures v.JStr? ==> AsInt(v, lib) == lib.toInt(v.s)
    ensures v.JNull? || v.JBool? || v.JOther? || (v.JFloat? && v.value.None?) ==> AsInt(v, lib) == None
    ensures v.JFloat? && v.value.Some? ==>
              var x := v.value.value;
              && AsInt(v, lib).Some?
              && var n := AsInt(v, lib).value as real;
              if x >= 0.0 then n <= x < n + 1.0 else n - 1.0 < x <= n
  {
  }

  /** How a value reads as a float, and how it prints. */
  lemma FloatAndTextSpelled(v: Json, lib: Library)
    ensures v.JInt? ==> AsFloat(v, lib) == Some(v.i as real) && Str(v) == Decimal(v.i)
    ensures v.JStr? ==> AsFloat(v, lib) == lib.toFloat(v.s) && Str(v) == v.s
    ensures v.JFloat? ==> AsFloat(v, lib) == v.value && Str(v) == v.repr
    ensures v.JNull? ==> AsFloat(v, lib) == None && Str(v) == "None"
    ensures v == JBool(true) ==> AsFloat(v, lib) == None && Str(v) == "True"
    ensures v == JBool(false) ==> AsFloat(v, lib) == None && Str(v) == "False"
    ensures v.JOther? ==> AsFloat(v, lib) == None && Str(v) == v.text
  {
  }

  method ReadInts(e: Envelope, lib: Library) returns (out: Option<map<Key, int>>)
    ensures out.Some? <==> forall k :: k in INT_KEYS ==> AsInt(Get(e, k), lib).Some?
    ensures out.Some? ==> KExitCode in out.value && out.value == map k | k in INT_KEYS :: AsInt(Get(e, k), lib).value
  {
    var ints: map<Key, int> := map[];
    assert INT_KEYS[0] == KExitCode;
    for i := 0 to |INT_KEYS|
      invariant forall k :: k in ints <==> k in INT_KEYS[..i]
      invariant forall k :: k in ints ==> AsInt(Get(e, k), lib) == Some(ints[k])
    {
      assert INT_KEYS[..i + 1] == INT_KEYS[..i] + [INT_KEYS[i]];
      assert INT_KEYS[i] in INT_KEYS;
      var n := AsInt(Get(e, INT_KEYS[i]), lib);
      if n.None? { return None; }
      ints := ints[INT_KEYS[i] := n.value];
    }
    assert INT_KEYS[..|INT_KEYS|] == INT_KEYS;
    out := Some(ints);
  }

  method ReadFloats(e: Envelope, lib: Library) returns (out: Option<map<Key, real>>)
    ensures out.Some? <==> forall k :: k in FLOAT_KEYS ==> AsFloat(Get(e, k), lib).Some?
    ensures out.Some? ==> out.value == map k | k in FLOAT_KEYS :: AsFloat(Get(e, k), lib).value
  {
    var floats: map<Key, real> := map[];
    for i := 0 to |FLOAT_KEYS|
      invariant forall k :: k in floats <==> k in FLOAT_KEYS[..i]
      invariant forall k :: k in floats ==> AsFloat(Get(e, k), lib) == Some(floats[k])
    {
      assert FLOAT_KEYS[..i + 1] == FLOAT_KEYS[..i] + [FLOAT_KEYS[i]];
      assert FLOAT_KEYS[i] in FLOAT_KEYS;
      var x := AsFloat(Get(e, FLOAT_KEYS[i]), lib);
      if x.None? { return None; }
      floats := floats[FLOAT_KEYS[i] := x.value];
    }
    assert FLOAT_KEYS[..|FLOAT_KEYS|] == FLOAT_KEYS;
    out := Some(floats);
  }

  // ------------------------------------------------------- what is proved

  /** One signing by the harness: the key it held and the fields it signed. */
  datatype Signing = Signing(key: string, values: map<Field, string>)

  ghost predicate NumberText(s: string) { s == "" || exists n: int :: s == Decimal(n) }

  /** The harness signs every field, without newlines, and numbers as decimals or "" when unmeasured. */
  ghost predicate Honest(s: Signing) {
    && (forall f: Field :: f in s.values && '\n' !in s.values[f])
    && (exists n: int :: s.values[ExitCode] == Decimal(n))
    && NumberText(s.values[PytestPassed]) && NumberText(s.values[PytestFailed])
  }

  /** An unforgeable MAC: one that verifies was made by the harness, over that very payload. */
  ghost predicate Unforged(e: Envelope, ctx: Context, lib: Library, signed: set<Signing>) {
    Authentic(e, ctx, lib) ==>
      var v := Texts(e.receipt.value);
      exists s :: s in signed && Honest(s) && s.key == ctx.keys[v[KeyId]] && MacPayload(s.values) == MacPayload(v)
  }

  /** int() reads a decimal back and refuses the empty text. */
  ghost predicate ReadsDecimals(lib: Library) {
    (forall n: int :: lib.toInt(Decimal(n)) == Some(n)) && lib.toInt("") == None
  }

  lemma InOrderDetermines(a: map<Field, string>, b: map<Field, string>)
    requires Complete(a) && Complete(b)
    requires InOrder(a) == InOrder(b)
    ensures a == b
  {
    forall f | f in a ensures a[f] == b[f] {
      Listed(f);
      assert InOrder(a)[Position(f)] == InOrder(b)[Position(f)];
    }
  }

  /**
   The encoding under the MAC is injective against honest fields: whatever text is
   presented, the same payload means the very same fifteen fields.
   */
  lemma PayloadInjective(signed: map<Field, string>, presented: map<Field, string>)
    requires Complete(signed) && Complete(presented)
    requires forall f: Field :: '\n' !in signed[f]
    requires MacPayload(signed) == MacPayload(presented)
    ensures signed == presented
  {
    var prefix := MAC_DOMAIN + "\n";
    assert MacPayload(signed)[|prefix|..] == Join(InOrder(signed), '\n');
    assert MacPayload(presented)[|prefix|..] == Join(InOrder(presented), '\n');
    JoinInjectiveOnClean(InOrder(signed), InOrder(presented), '\n');
    InOrderDetermines(signed, presented);
  }

  /** Honest fields are needed: with a newline in one field, two different tuples have one text. */
  lemma NewlineBreaksInjectivity()
    ensures Join(["a\nb", "c"], '\n') == Join(["a", "b\nc"], '\n')
    ensures ["a\nb", "c"] != ["a", "b\nc"]
  {
    assert ["a\nb", "c"][1..] == ["c"] && ["a", "b\nc"][1..] == ["b\nc"];
    assert "a\nb" + ['\n'] + "c" != [] ==> "a\nb" + ['\n'] + "c" == "a" + ['\n'] + "b\nc";
    assert |"a\nb"| != |"a"|;
  }

  /** The presented row is exactly one that the harness signed, for this call. */
  ghost predicate SignedAs(e: Envelope, ctx: Context, s: Signing) {
    && e.receipt.Some? && AllTexts(e.receipt.value) && Texts(e.receipt.value) == s.values
    && Complete(s.values) && s.values[KeyId] in ctx.keys && s.key == ctx.keys[s.values[KeyId]]
    && s.values[Nonce] == ctx.nonce
    && s.values[CodeSha] == ctx.codeSha && s.values[TestSha] == ctx.testSha
  }

  lemma AuthenticIsSigned(e: Envelope, ctx: Context, lib: Library, signed: set<Signing>) returns (s: Signing)
    requires Unforged(e, ctx, lib, signed) && Authentic(e, ctx, lib)
    ensures s in signed && Honest(s) && SignedAs(e, ctx, s)
  {
    var v := Texts(e.receipt.value);
    s :| s in signed && Honest(s) && s.key == ctx.keys[v[KeyId]] && MacPayload(s.values) == MacPayload(v);
    PayloadInjective(s.values, v);
  }

  /** A number in the row is the number that was signed. */
  lemma SignedNumber(v: Json, text: string, lib: Library)
    requires Str(v) == text && NumberText(text) && AsInt(v, lib).Some? && ReadsDecimals(lib)
    requires v.JFloat? ==> forall n: int :: v.repr != Decimal(n)
    requires v.JFloat? ==> v.repr != ""
    ensures text == Decimal(AsInt(v, lib).value)
  {
    if v.JStr? {
      assert text != "";
      var n: int :| text == Decimal(n);
    }
  }

  /** A float prints with a point, an exponent or a letter, so never as a decimal integer. */
  ghost predicate FloatsPrintAsFloats(e: Envelope) {
    forall k :: k in e.values && e.values[k].JFloat? ==>
      e.values[k].repr != "" && forall n: int :: e.values[k].repr != Decimal(n)
  }

  /**
   Receipt binding: a row returned under a receipt context carries exactly the exit code
   and the test counts that the harness signed, for this call's nonce and input digests.
   */
  lemma {:induction false} RowIsSigned(returncode: int, parsed: Option<Envelope>, ctx: Context, lib: Library,
                                       signed: set<Signing>)
    returns (s: Signing)
    requires TelemetryOf(returncode, parsed, Some(ctx), lib).Measured?
    requires Unforged(parsed.value, ctx, lib, signed) && ReadsDecimals(lib) && FloatsPrintAsFloats(parsed.value)
    ensures s in signed && SignedAs(parsed.value, ctx, s) && Honest(s)
    ensures var row := TelemetryOf(returncode, parsed, Some(ctx), lib).row;
            && row.receiptVerified && Complete(s.values)
            && KExitCode in row.ints && s.values[ExitCode] == Decimal(row.ints[KExitCode])
            && KPytestPassed in row.ints && s.values[PytestPassed] == Decimal(row.ints[KPytestPassed])
            && KPytestFailed in row.ints && s.values[PytestFailed] == Decimal(row.ints[KPytestFailed])
  {
    var e := parsed.value;
    s := AuthenticIsSigned(e, ctx, lib, signed);
    assert INT_KEYS[0] == KExitCode && INT_KEYS[4] == KPytestPassed && INT_KEYS[5] == KPytestFailed;
    SignedNumber(Get(e, KExitCode), s.values[ExitCode], lib);
    SignedNumber(Get(e, KPytestPassed), s.values[PytestPassed], lib);
    SignedNumber(Get(e, KPytestFailed), s.values[PytestFailed], lib);
  }

  ghost predicate Backs(s: Signing, envelopes: seq<Envelope>, contexts: seq<Context>, a: int)
    requires |envelopes| == |contexts|
  {
    0 <= a < |envelopes| && SignedAs(envelopes[a], contexts[a], s)
  }

  /**
   No replay: over any calls with distinct nonces, each adopted row is backed by a
   signing of its own; no signing backs two of them.
   */
  lemma EachRowItsOwnSigning(envelopes: seq<Envelope>, contexts: seq<Context>, lib: Library, signed: set<Signing>)
    requires |envelopes| == |contexts|
    requires forall a, b :: 0 <= a < b < |contexts| ==> contexts[a].nonce != contexts[b].nonce
    requires forall a :: 0 <= a < |envelopes| ==> Unforged(envelopes[a], contexts[a], lib, signed)
    ensures forall a :: 0 <= a < |envelopes| && Authentic(envelopes[a], contexts[a], lib) ==>
              exists s :: s in signed && Backs(s, envelopes, contexts, a)
    ensures forall a, b, s :: Backs(s, envelopes, contexts, a) && Backs(s, envelopes, contexts, b) ==> a == b
  {
    forall a | 0 <= a < |envelopes| && Authentic(envelopes[a], contexts[a], lib)
      ensures exists s :: s in signed && Backs(s, envelopes, contexts, a)
    {
      var s := AuthenticIsSigned(envelopes[a], contexts[a], lib, signed);
      assert Backs(s, envelopes, contexts, a);
    }
    NoncesDiffer(contexts);
  }

  lemma NoncesDiffer(contexts: seq<Context>)
    requires forall a, b :: 0 <= a < b < |contexts| ==> contexts[a].nonce != contexts[b].nonce
    ensures forall a, b :: 0 <= a < |contexts| && 0 <= b < |contexts| && a != b ==>
                             contexts[a].nonce != contexts[b].nonce
  {
    forall a, b | 0 <= a < |contexts| && 0 <= b < |contexts| && a != b ensures contexts[a].nonce != contexts[b].nonce {
      assert contexts[if a < b then a else b].nonce != contexts[if a < b then b else a].nonce;
    }
  }

  /**
   Refusals keep their names: a row signed for one call, presented to a later one under
   the same keys, is refused for its context and not for its signature.
   */
  lemma ReplayNamed(e: Envelope, ctx: Context, later: Context, lib: Library)
    requires Authentic(e, ctx, lib) && later.keys == ctx.keys && later.nonce != ctx.nonce
    ensures RefusalOf(e, later, lib) == Some(ContextMismatch)
    ensures TelemetryOf(0, Some(e), Some(later), lib) == Stub(ReceiptUntrusted)
  {
    RefusedUnlessAuthentic(e, later, lib);
  }
}
