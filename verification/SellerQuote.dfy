/**
 The external seller adapter: `negotiate` checks a seller's signed reply and stores a
 quote; `assertQuote` re-checks the stored quote against the same binding later.
 Hashing, signature recovery, address checksums and number text are parameters.
 */
module SellerQuote {
  import opened Wrappers
  import opened JsonValues
  import opened JsonText
  import opened JsonParser

  /// Text helpers

  function LowerUnit(c: CodeUnit): CodeUnit {
    if 0x41 <= c <= 0x5a then c + 0x20 else c
  }

  function Lower(s: Str): Str {
    seq(|s|, i requires 0 <= i < |s| => LowerUnit(s[i]))
  }

  /** `same`: equal up to letter case. */
  predicate SameText(a: Str, b: Str) {
    Lower(a) == Lower(b)
  }

  predicate IsTrimmable(c: CodeUnit) {
    0x09 <= c <= 0x0d || c == 0x20 || c == 0xa0 || c == 0x1680 || 0x2000 <= c <= 0x200a ||
    c == 0x2028 || c == 0x2029 || c == 0x202f || c == 0x205f || c == 0x3000 || c == 0xfeff
  }

  function TrimStart(s: Str): (r: Str)
    ensures r == [] || !IsTrimmable(r[0])
  {
    if s != [] && IsTrimmable(s[0]) then TrimStart(s[1..]) else s
  }

  function TrimEnd(s: Str): (r: Str)
    ensures r <= s
    ensures r == [] || !IsTrimmable(r[|r| - 1])
  {
    if s != [] && IsTrimmable(s[|s| - 1]) then TrimEnd(s[..|s| - 1]) else s
  }

  /** `String.prototype.trim`, which the identity schema applies to the namespace. */
  function Trim(s: Str): Str {
    TrimEnd(TrimStart(s))
  }

  lemma TrimIdempotent(s: Str)
    ensures Trim(Trim(s)) == Trim(s)
  {
    var t := Trim(s);
    assert t <= TrimStart(s);
    if t != [] {
      assert t[0] == TrimStart(s)[0];
    }
  }

  function SanitizeUnit(c: CodeUnit): Str {
    if c == LBRACKET then [0x28]
    else if c == RBRACKET then [0x29]
    else if c <= 0x08 || c == 0x0b || c == 0x0c || 0x0e <= c <= 0x1f then []
    else [c]
  }

  /** Square brackets become parentheses; control characters other than \t \n \r are dropped. */
  function Sanitize(s: Str): Str {
    if s == [] then [] else SanitizeUnit(s[0]) + Sanitize(s[1..])
  }

  function SanitizeAll(ss: seq<Str>): (r: seq<Str>)
    ensures |r| == |ss| && forall i :: 0 <= i < |ss| ==> r[i] == Sanitize(ss[i])
  {
    seq(|ss|, i requires 0 <= i < |ss| => Sanitize(ss[i]))
  }

  /// Numbers

  const MAX_SAFE: nat := 9007199254740991
  const UINT256_MAX: nat :=
    115792089237316195423570985008687907853269984665640564039457584007913129639935

  function Decimal(n: nat): (r: Str)
    ensures IsCanonicalDecimal(r) && DecimalValue(r) == n
    ensures n > 0 ==> r[0] != 0x30
  {
    if n < 10 then
      var r := [0x30 + n];
      assert r[..0] == [];
      r
    else
      var head := Decimal(n / 10);
      var r := head + [0x30 + n % 10];
      assert r[..|r| - 1] == head;
      r
  }

  lemma {:induction false} DigitsRunOut(t: Str)
    requires AllDigits(t)
    ensures DigitRun(t) == |t|
  {
    if t != [] { DigitsRunOut(t[1..]); }
  }

  lemma DecimalIsNumberText(n: nat)
    ensures IsNumberText(Decimal(n))
  {
    DigitsRunOut(Decimal(n));
  }

  /// Hashing, signatures and JavaScript's number text

  datatype Env = Env(
    keccak: Str -> Str,
    sha256: Str -> Str,
    recover: (Str, Str) -> Option<Str>,
    checksum: Str -> Str,
    num: Str -> Str,
    isUrl: Str -> bool)

  /** Checksumming changes only letter case, and a safe integer prints as its decimal text. */
  ghost predicate Sound(env: Env) {
    && (forall a :: SameText(env.checksum(a), a))
    && (forall n: nat {:trigger Decimal(n)} :: n <= MAX_SAFE ==> env.num(Decimal(n)) == Decimal(n))
  }

  /// Schemas

  predicate IsHexDigit(c: CodeUnit) {
    HexValue(c) >= 0
  }

  predicate IsHexText(s: Str, digits: nat) {
    |s| == digits + 2 && s[0] == 0x30 && s[1] == 0x78 && forall i :: 2 <= i < |s| ==> IsHexDigit(s[i])
  }

  predicate IsAddress(s: Str) {
    IsHexText(s, 40)
  }

  predicate IsNonZeroAddress(s: Str) {
    IsAddress(s) && exists i :: 2 <= i < |s| && s[i] != 0x30
  }

  predicate IsHash(s: Str) {
    IsHexText(s, 64)
  }

  predicate IsSignature(s: Str) {
    IsHexText(s, 130)
  }

  predicate IsPositiveDecimal(s: Str) {
    IsCanonicalDecimal(s) && s[0] != 0x30
  }

  predicate Bounded(s: Str, max: nat) {
    1 <= |s| <= max
  }

  predicate IsTimestamp(n: nat) {
    1 <= n <= MAX_SAFE
  }

  predicate IsBscChain(n: nat) {
    n == 56 || n == 97
  }

  datatype Identity = Identity(namespace: Str, chainId: nat, identityRegistry: Str, agentId: Str)

  predicate IsNamespaceUnit(c: CodeUnit) {
    IsDigit(c) || 0x41 <= c <= 0x5a || 0x61 <= c <= 0x7a || c == 0x2e || c == 0x5f || c == 0x2d
  }

  /** The identity schema: the namespace is trimmed before it is checked, and trimmed in the result. */
  function ParseIdentity(id: Identity): Option<Identity> {
    var ns := Trim(id.namespace);
    if Bounded(ns, 128) && (forall i :: 0 <= i < |ns| ==> IsNamespaceUnit(ns[i]))
       && 1 <= id.chainId <= 0x7fff_ffff && IsAddress(id.identityRegistry)
       && IsCanonicalDecimal(id.agentId) && DecimalValue(id.agentId) <= UINT256_MAX
    then Some(id.(namespace := ns))
    else None
  }

  datatype Binding = Binding(
    identity: Identity, providerAddress: Str, endpoint: Str, resultBaseUrl: Str,
    commerceContract: Str, paymentToken: Str, maxPriceAtomic: Str)

  /** What the adapter's constructor demands; it checks the identity but keeps it as given. */
  predicate ValidBinding(b: Binding) {
    ParseIdentity(b.identity).Some? && IsNonZeroAddress(b.providerAddress) &&
    IsNonZeroAddress(b.commerceContract) && IsNonZeroAddress(b.paymentToken) && IsPositiveDecimal(b.maxPriceAtomic)
  }

  datatype Terms = Terms(
    deliverables: Str, qualityStandards: Str, successCriteria: Option<seq<Str>>,
    evaluationRequired: Option<bool>, evaluatorType: Option<Str>)

  predicate ValidTerms(t: Terms) {
    && Bounded(t.deliverables, 1200) && Bounded(t.qualityStandards, 1200)
    && (t.successCriteria.Some? ==>
          |t.successCriteria.value| <= 8 &&
          forall i :: 0 <= i < |t.successCriteria.value| ==> Bounded(t.successCriteria.value[i], 300))
    && (t.evaluatorType.Some? ==> Bounded(t.evaluatorType.value, 64))
  }

  /** A seller's reply with the fields of the negotiation schema. */
  datatype Reply = Reply(
    taskDescription: Str, requestTerms: Terms,
    responseTerms: Terms, price: Str, currency: Str,
    completionSeconds: nat, expiresAt: nat, negotiatedAt: nat,
    requestHash: Str, responseHash: Str, negotiationHash: Str, providerSig: Str,
    chainId: nat, verifyingContract: Str, providerAddress: Option<Str>)

  predicate ValidReply(r: Reply) {
    && Bounded(r.taskDescription, 1600) && ValidTerms(r.requestTerms) && ValidTerms(r.responseTerms)
    && IsPositiveDecimal(r.price) && IsNonZeroAddress(r.currency)
    && IsTimestamp(r.completionSeconds) && r.completionSeconds <= 86400
    && IsTimestamp(r.expiresAt) && IsTimestamp(r.negotiatedAt)
    && IsHash(r.requestHash) && IsHash(r.responseHash) && IsHash(r.negotiationHash)
    && IsSignature(r.providerSig) && IsBscChain(r.chainId) && IsNonZeroAddress(r.verifyingContract)
    && (r.providerAddress.Some? ==> IsNonZeroAddress(r.providerAddress.value))
  }

  datatype Quote = Quote(
    identity: Identity, providerAddress: Str, endpoint: Str, resultBaseUrl: Str,
    chainId: nat, commerceContract: Str, paymentToken: Str, priceAtomic: Str,
    requestedTask: Str, deliverables: Str, qualityStandards: Str,
    issuedAt: nat, expiresAt: nat, completionSeconds: nat,
    negotiationHash: Str, providerSignature: Str,
    signedDescription: Str, descriptionDigest: Str, finalizedIdentityBlock: Str)

  /** `externalSellerQuoteSchema.parse`. */
  function ParseQuote(q: Quote, env: Env): Option<Quote> {
    match ParseIdentity(q.identity)
    case None => None
    case Some(identity) =>
      if IsNonZeroAddress(q.providerAddress) && env.isUrl(q.endpoint) && env.isUrl(q.resultBaseUrl)
         && IsBscChain(q.chainId) && IsNonZeroAddress(q.commerceContract) && IsNonZeroAddress(q.paymentToken)
         && IsPositiveDecimal(q.priceAtomic)
         && Bounded(q.requestedTask, 1600) && Bounded(q.deliverables, 1200) && Bounded(q.qualityStandards, 1200)
         && IsTimestamp(q.issuedAt) && IsTimestamp(q.expiresAt)
         && IsTimestamp(q.completionSeconds) && q.completionSeconds <= 86400
         && IsHash(q.negotiationHash) && IsSignature(q.providerSignature)
         && Bounded(q.signedDescription, 4096)
         && |q.descriptionDigest| == 64
         && (forall i :: 0 <= i < 64 ==>
               IsDigit(q.descriptionDigest[i]) || 0x61 <= q.descriptionDigest[i] <= 0x66)
         && q.finalizedIdentityBlock != [] && AllDigits(q.finalizedIdentityBlock)
      then Some(q.(identity := identity))
      else None
  }

  /// The signed description

  const ACCEPTED: Str := Text("accepted")
  const CHAIN_ID: Str := Text("chain_id")
  const CURRENCY: Str := Text("currency")
  const DELIVERABLES: Str := Text("deliverables")
  const ESTIMATED_COMPLETION_SECONDS: Str := Text("estimated_completion_seconds")
  const EVALUATION_REQUIRED: Str := Text("evaluation_required")
  const EVALUATOR_TYPE: Str := Text("evaluator_type")
  const NEGOTIATED_AT: Str := Text("negotiated_at")
  const NEGOTIATION_HASH: Str := Text("negotiation_hash")
  const PRICE: Str := Text("price")
  const PROVIDER_SIG: Str := Text("provider_sig")
  const QUALITY_STANDARDS: Str := Text("quality_standards")
  const QUOTE_EXPIRES_AT: Str := Text("quote_expires_at")
  const SUCCESS_CRITERIA: Str := Text("success_criteria")
  const TASK: Str := Text("task")
  const TASK_DESCRIPTION: Str := Text("task_description")
  const TERMS: Str := Text("terms")
  const VERIFYING_CONTRACT: Str := Text("verifying_contract")
  const VERSION: Str := Text("version")

  function Num(n: nat): Json {
    Number(Decimal(n))
  }

  function Strings(ss: seq<Str>): (r: seq<Json>)
    ensures |r| == |ss| && forall i :: 0 <= i < |ss| ==> r[i] == String(ss[i])
  {
    seq(|ss|, i requires 0 <= i < |ss| => String(ss[i]))
  }

  function Optional(key: Str, v: Option<Json>): seq<Field> {
    match v
    case None => []
    case Some(x) => [Field(key, x)]
  }

  /** The members the terms object has in the request and, extended, in the response. */
  function TermsFields(t: Terms): seq<Field> {
    [Field(DELIVERABLES, String(t.deliverables)), Field(QUALITY_STANDARDS, String(t.qualityStandards))]
    + Optional(SUCCESS_CRITERIA,
               if t.successCriteria.Some? then Some(Array(Strings(t.successCriteria.value))) else None)
    + Optional(EVALUATION_REQUIRED,
               if t.evaluationRequired.Some? then Some(Bool(t.evaluationRequired.value)) else None)
    + Optional(EVALUATOR_TYPE,
               if t.evaluatorType.Some? then Some(String(t.evaluatorType.value)) else None)
  }

  function RequestJson(r: Reply): Json {
    Object([Field(TASK_DESCRIPTION, String(r.taskDescription)),
            Field(TERMS, Object(TermsFields(r.requestTerms)))])
  }

  function ResponseJson(r: Reply): Json {
    Object([Field(ACCEPTED, Bool(true)),
            Field(TERMS, Object(TermsFields(r.responseTerms) +
              [Field(PRICE, String(r.price)), Field(CURRENCY, String(r.currency))])),
            Field(ESTIMATED_COMPLETION_SECONDS, Num(r.completionSeconds)),
            Field(QUOTE_EXPIRES_AT, Num(r.expiresAt))])
  }

  function SignedTerms(t: Terms): seq<Field> {
    [Field(DELIVERABLES, String(Sanitize(t.deliverables))),
     Field(QUALITY_STANDARDS, String(Sanitize(t.qualityStandards)))]
    + Optional(SUCCESS_CRITERIA,
               if t.successCriteria.Some? && t.successCriteria.value != []
               then Some(Array(Strings(SanitizeAll(t.successCriteria.value)))) else None)
  }

  /** The object the provider signs. */
  function ContentFields(r: Reply, task: Str, env: Env): seq<Field> {
    [Field(VERSION, Num(1)),
     Field(NEGOTIATED_AT, Num(r.negotiatedAt)),
     Field(QUOTE_EXPIRES_AT, Num(r.expiresAt)),
     Field(TASK, String(Sanitize(task))),
     Field(TERMS, Object(SignedTerms(r.responseTerms))),
     Field(PRICE, String(r.price)),
     Field(CURRENCY, String(r.currency)),
     Field(CHAIN_ID, Num(r.chainId)),
     Field(VERIFYING_CONTRACT, String(env.checksum(r.verifyingContract)))]
  }

  function SignatureFields(r: Reply): seq<Field> {
    [Field(NEGOTIATION_HASH, String(r.negotiationHash)),
     Field(PROVIDER_SIG, String(r.providerSig))]
  }

  function SignedDescription(r: Reply, task: Str, env: Env): Str {
    CanonicalSellerJson(Object(ContentFields(r, task, env) + SignatureFields(r)))
  }

  /// Negotiation

  datatype Task = Task(task: Str, deliverables: Str, qualityStandards: Str)

  datatype IdentityRead = IdentityRead(agentWallet: Str, finalizedBlock: Str)

  datatype Refusal =
    | InvalidTask | InvalidReply | DifferentWallet | ChangedTask | DifferentDeployment | PriceOutOfRange
    | UnsupportedLifetime | HashMismatch | SignedHashMismatch | SignerMismatch | TooLong | InvalidQuote

  predicate PriceAllowed(price: Str, chainId: nat, b: Binding)
    requires IsCanonicalDecimal(price) && IsCanonicalDecimal(b.maxPriceAtomic)
  {
    DecimalValue(price) < UINT256_MAX && (chainId == 97 ==> DecimalValue(price) <= DecimalValue(b.maxPriceAtomic))
  }

  /** The quote `negotiate` hands to the quote schema. */
  function DraftQuote(b: Binding, task: Task, r: Reply, signer: Str, id: IdentityRead, env: Env): Quote {
    var signed := SignedDescription(r, task.task, env);
    Quote(b.identity, signer, b.endpoint, b.resultBaseUrl, r.chainId, r.verifyingContract, r.currency,
          r.price, task.task, task.deliverables, task.qualityStandards, r.negotiatedAt, r.expiresAt,
          r.completionSeconds, r.negotiationHash, r.providerSig, signed, env.sha256(signed), id.finalizedBlock)
  }

  /** The checks of `negotiate` up to the signed hash, in order. */
  function Refuse(b: Binding, task: Task, r: Reply, now: int, env: Env): Option<Refusal>
    requires ValidBinding(b)
  {
    if !(Bounded(task.task, 1600) && Bounded(task.deliverables, 1200) && Bounded(task.qualityStandards, 1200))
    then Some(InvalidTask)
    else if !ValidReply(r) then Some(InvalidReply)
    else if r.providerAddress.Some? && !SameText(r.providerAddress.value, b.providerAddress) then Some(DifferentWallet)
    else if r.taskDescription != task.task || r.requestTerms.deliverables != task.deliverables
            || r.requestTerms.qualityStandards != task.qualityStandards
            || r.responseTerms.deliverables != task.deliverables
            || r.responseTerms.qualityStandards != task.qualityStandards
    then Some(ChangedTask)
    else if r.chainId != b.identity.chainId || !SameText(r.verifyingContract, b.commerceContract)
            || !SameText(r.currency, b.paymentToken)
    then Some(DifferentDeployment)
    else if !PriceAllowed(r.price, b.identity.chainId, b) then Some(PriceOutOfRange)
    else if r.negotiatedAt > now + 5 || r.negotiatedAt < now - 60 || r.expiresAt < now + 30
            || r.expiresAt > r.negotiatedAt + 900
    then Some(UnsupportedLifetime)
    else if env.keccak(CanonicalSellerJson(RequestJson(r))) != r.requestHash
            || env.keccak(CanonicalSellerJson(ResponseJson(r))) != r.responseHash
    then Some(HashMismatch)
    else if env.keccak(CanonicalSellerJson(Object(ContentFields(r, task.task, env)))) != r.negotiationHash
    then Some(SignedHashMismatch)
    else None
  }

  /** `negotiate`, given the seller's reply, the clock and the registry read. */
  function Negotiate(b: Binding, task: Task, r: Reply, now: int, id: IdentityRead, env: Env): Result<Quote, Refusal>
    requires ValidBinding(b)
  {
    var refusal := Refuse(b, task, r, now, env);
    var recovered := env.recover(r.negotiationHash, r.providerSig);
    if refusal.Some? then Failure(refusal.value)
    else if recovered.None? then Failure(SignerMismatch)
    else if !SameText(id.agentWallet, b.providerAddress) || !SameText(recovered.value, id.agentWallet)
    then Failure(SignerMismatch)
    else if |SignedDescription(r, task.task, env)| > 4096 then Failure(TooLong)
    else
      var quote := ParseQuote(DraftQuote(b, task, r, recovered.value, id, env), env);
      if quote.None? then Failure(InvalidQuote) else Success(quote.value)
  }

  /// Re-checking a stored quote

  function Lookup(fs: seq<Field>, key: Str): Option<Json> {
    if fs == [] then None else if fs[0].key == key then Some(fs[0].value) else Lookup(fs[1..], key)
  }

  /** `record`: the members of an object, none for any other value. */
  function Members(v: Option<Json>): seq<Field> {
    match v
    case Some(Object(fields)) => fields
    case _ => []
  }

  /** The remaining members after the two named ones are taken out by destructuring. */
  function Without(fs: seq<Field>, a: Str, b: Str): seq<Field> {
    if fs == [] then []
    else (if fs[0].key == a || fs[0].key == b then [] else [fs[0]]) + Without(fs[1..], a, b)
  }

  function JoinElements(items: seq<Json>): Str {
    if items == [] then []
    else (if items[0].Null? then [] else ValueText(items[0]))
         + (if |items| > 1 then [COMMA] else []) + JoinElements(items[1..])
  }

  /** `String(value)` of a JSON value. */
  function ValueText(v: Json): Str {
    match v
    case Null => NULL_TEXT
    case Bool(b) => if b then TRUE_TEXT else FALSE_TEXT
    case Number(lexeme) => lexeme
    case String(s) => s
    case Array(items) => JoinElements(items)
    case Object(_) => Text("[object Object]")
  }

  /** `String(value)` of a member that may be missing. */
  function AsText(v: Option<Json>): Str {
    match v
    case None => Text("undefined")
    case Some(x) => ValueText(x)
  }

  predicate MatchesBinding(b: Binding, q: Quote)
    requires IsCanonicalDecimal(q.priceAtomic) && IsCanonicalDecimal(b.maxPriceAtomic)
  {
    && q.endpoint == b.endpoint && q.resultBaseUrl == b.resultBaseUrl
    && SameText(q.providerAddress, b.providerAddress)
    && q.identity.agentId == b.identity.agentId
    && SameText(q.identity.identityRegistry, b.identity.identityRegistry)
    && q.identity.namespace == b.identity.namespace
    && q.identity.chainId == b.identity.chainId && q.chainId == b.identity.chainId
    && SameText(q.commerceContract, b.commerceContract) && SameText(q.paymentToken, b.paymentToken)
    && PriceAllowed(q.priceAtomic, q.chainId, b)
  }

  /** The members of a parsed description other than the hash and the signature. */
  function SignedContent(description: seq<Field>): seq<Field> {
    Without(description, PROVIDER_SIG, NEGOTIATION_HASH)
  }

  /** The hash and the signature cover exactly this content. */
  predicate MatchesSignature(q: Quote, description: seq<Field>, env: Env) {
    var signer := env.recover(q.negotiationHash, q.providerSignature);
    && Lookup(description, PROVIDER_SIG) == Some(String(q.providerSignature))
    && Lookup(description, NEGOTIATION_HASH) == Some(String(q.negotiationHash))
    && env.keccak(CanonicalSellerJson(Object(SignedContent(description)))) == q.negotiationHash
    && signer.Some? && SameText(signer.value, q.providerAddress)
  }

  /** The content states the terms of the quote. */
  predicate MatchesContent(q: Quote, content: seq<Field>) {
    var terms := Members(Lookup(content, TERMS));
    && Lookup(content, PRICE) == Some(String(q.priceAtomic))
    && SameText(AsText(Lookup(content, CURRENCY)), q.paymentToken)
    && Lookup(content, CHAIN_ID) == Some(Num(q.chainId))
    && SameText(AsText(Lookup(content, VERIFYING_CONTRACT)), q.commerceContract)
    && Lookup(content, TASK) == Some(String(Sanitize(q.requestedTask)))
    && Lookup(terms, DELIVERABLES) == Some(String(Sanitize(q.deliverables)))
    && Lookup(terms, QUALITY_STANDARDS) == Some(String(Sanitize(q.qualityStandards)))
    && Lookup(content, QUOTE_EXPIRES_AT) == Some(Num(q.expiresAt))
    && Lookup(content, NEGOTIATED_AT) == Some(Num(q.issuedAt))
  }

  predicate MatchesDescription(q: Quote, description: seq<Field>, env: Env) {
    MatchesSignature(q, description, env) && MatchesContent(q, SignedContent(description))
  }

  /** `assertQuote` returns without throwing. */
  predicate AssertQuote(b: Binding, q: Quote, env: Env)
    requires ValidBinding(b)
  {
    && ParseQuote(q, env).Some?
    && env.sha256(q.signedDescription) == q.descriptionDigest
    && MatchesBinding(b, q)
    && var description := Parse(q.signedDescription, env.num);
       description.Accept? && MatchesDescription(q, Members(Some(description.value)), env)
  }
}
