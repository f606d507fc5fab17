/**
 What the seller adapter demands, one condition at a time: exactly when a negotiation succeeds, a
 stored quote passes, a job is accepted and an answer is taken as its result.
 */
module SellerDemands {
  import opened Wrappers
  import opened JsonValues
  import opened JsonText
  import opened JsonParser
  import opened SellerQuote
  import R = SellerResult
  import Proofs = SellerQuoteProofs
  import Lifecycle

  /// Formats

  predicate IsHexUnit(c: CodeUnit) {
    0x30 <= c <= 0x39 || 0x61 <= c <= 0x66 || 0x41 <= c <= 0x46
  }

  /** `0x` and this many hexadecimal digits of either case. */
  predicate Hexadecimal(s: Str, digits: nat) {
    |s| == digits + 2 && s[0] == 0x30 && s[1] == 0x78 && forall i :: 2 <= i < |s| ==> IsHexUnit(s[i])
  }

  predicate AddressText(s: Str) {
    Hexadecimal(s, 40) && exists i :: 2 <= i < 42 && s[i] != 0x30
  }

  /** Decimal digits, the first one not a zero. */
  predicate PositiveText(s: Str) {
    s != [] && s[0] != 0x30 && forall i :: 0 <= i < |s| ==> 0x30 <= s[i] <= 0x39
  }

  lemma HexUnits(c: CodeUnit)
    ensures IsHexDigit(c) <==> IsHexUnit(c)
  {
  }

  lemma HexTexts(s: Str, digits: nat)
    ensures IsHexText(s, digits) <==> Hexadecimal(s, digits)
  {
    if IsHexText(s, digits) {
      forall i | 2 <= i < |s| ensures IsHexUnit(s[i]) { HexUnits(s[i]); }
    }
    if Hexadecimal(s, digits) {
      forall i | 2 <= i < |s| ensures IsHexDigit(s[i]) { HexUnits(s[i]); }
    }
  }

  lemma Formats(s: Str)
    ensures IsAddress(s) <==> Hexadecimal(s, 40)
    ensures IsNonZeroAddress(s) <==> AddressText(s)
    ensures IsHash(s) <==> Hexadecimal(s, 64)
    ensures IsSignature(s) <==> Hexadecimal(s, 130)
    ensures IsPositiveDecimal(s) <==> PositiveText(s)
  {
    HexTexts(s, 40);
    HexTexts(s, 64);
    HexTexts(s, 130);
  }

  /// Texts

  /** White space of ECMAScript, line terminators included. */
  predicate IsWhite(c: CodeUnit) {
    c in {0x09, 0x0a, 0x0b, 0x0c, 0x0d, 0x20, 0xa0, 0x1680, 0x2000, 0x2001, 0x2002, 0x2003, 0x2004, 0x2005, 0x2006,
          0x2007, 0x2008, 0x2009, 0x200a, 0x2028, 0x2029, 0x202f, 0x205f, 0x3000, 0xfeff}
  }

  predicate AllWhite(s: Str) {
    forall i :: 0 <= i < |s| ==> IsWhite(s[i])
  }

  lemma WhiteIs(c: CodeUnit)
    ensures IsTrimmable(c) <==> IsWhite(c)
  {
  }

  /** Trimming takes white space off both ends, and all of it. */
  lemma TrimIs(s: Str) returns (before: Str, after: Str)
    ensures s == before + Trim(s) + after && AllWhite(before) && AllWhite(after)
    ensures Trim(s) == [] || (!IsWhite(Trim(s)[0]) && !IsWhite(Trim(s)[|Trim(s)| - 1]))
  {
    before := StartIs(s);
    after := EndIs(TrimStart(s));
    EndsAreNot(s);
  }

  lemma EndsAreNot(s: Str)
    ensures Trim(s) == [] || (!IsWhite(Trim(s)[0]) && !IsWhite(Trim(s)[|Trim(s)| - 1]))
  {
    var t := Trim(s);
    if t != [] {
      assert t <= TrimStart(s) && t[0] == TrimStart(s)[0];
      WhiteIs(t[0]);
      WhiteIs(t[|t| - 1]);
    }
  }

  lemma {:induction false} StartIs(s: Str) returns (before: Str)
    ensures s == before + TrimStart(s) && AllWhite(before)
  {
    if s != [] && IsTrimmable(s[0]) {
      WhiteIs(s[0]);
      var rest := StartIs(s[1..]);
      before := [s[0]] + rest;
    } else {
      before := [];
    }
  }

  lemma {:induction false} EndIs(s: Str) returns (after: Str)
    ensures s == TrimEnd(s) + after && AllWhite(after)
  {
    if s != [] && IsTrimmable(s[|s| - 1]) {
      WhiteIs(s[|s| - 1]);
      var rest := EndIs(s[..|s| - 1]);
      after := rest + [s[|s| - 1]];
      assert s == s[..|s| - 1] + [s[|s| - 1]];
    } else {
      after := [];
    }
  }

  /** Sanitizing goes unit by unit: brackets become parentheses, and control codes but three are dropped. */
  lemma {:induction false} SanitizeIs(s: Str, c: CodeUnit)
    ensures Sanitize([c] + s) == Sanitize([c]) + Sanitize(s)
    ensures Sanitize([c]) == if c == 0x5b then [0x28] else if c == 0x5d then [0x29]
                             else if c < 0x20 && c !in {0x09, 0x0a, 0x0d} then [] else [c]
  {
    assert ([c] + s)[1..] == s && [c][1..] == [];
  }

  /** Two texts are the same up to the case of the letters A to Z. */
  lemma SameTextIs(a: Str, b: Str)
    ensures SameText(a, b) <==>
            |a| == |b| && forall i :: 0 <= i < |a| ==>
              a[i] == b[i] || (0x41 <= a[i] <= 0x5a && b[i] == a[i] + 0x20) ||
              (0x41 <= b[i] <= 0x5a && a[i] == b[i] + 0x20)
  {
    if SameText(a, b) {
      assert |a| == |Lower(a)| == |Lower(b)| == |b|;
      forall i | 0 <= i < |a|
        ensures a[i] == b[i] || (0x41 <= a[i] <= 0x5a && b[i] == a[i] + 0x20) ||
                (0x41 <= b[i] <= 0x5a && a[i] == b[i] + 0x20)
      {
        assert Lower(a)[i] == LowerUnit(a[i]) && Lower(b)[i] == LowerUnit(b[i]);
      }
    }
  }

  /** The identity schema; what it returns is the identity with its namespace trimmed. */
  lemma IdentityIff(id: Identity)
    ensures ParseIdentity(id).Some? <==>
            && 1 <= |Trim(id.namespace)| <= 128
            && (forall i :: 0 <= i < |Trim(id.namespace)| ==>
                  var c := Trim(id.namespace)[i];
                  0x30 <= c <= 0x39 || 0x41 <= c <= 0x5a || 0x61 <= c <= 0x7a || c in {0x2d, 0x2e, 0x5f})
            && 1 <= id.chainId <= 2147483647 && Hexadecimal(id.identityRegistry, 40)
            && (id.agentId == [0x30] || PositiveText(id.agentId))
            && DecimalValue(id.agentId) <= UINT256_MAX
    ensures ParseIdentity(id).Some? ==> ParseIdentity(id).value == id.(namespace := Trim(id.namespace))
  {
    Formats(id.identityRegistry);
    NamespaceUnits(Trim(id.namespace));
    assert IsCanonicalDecimal(id.agentId) <==> id.agentId == [0x30] || PositiveText(id.agentId);
  }

  lemma NamespaceUnits(ns: Str)
    ensures (forall i :: 0 <= i < |ns| ==> IsNamespaceUnit(ns[i])) <==>
            (forall i :: 0 <= i < |ns| ==>
               var c := ns[i];
               0x30 <= c <= 0x39 || 0x41 <= c <= 0x5a || 0x61 <= c <= 0x7a || c in {0x2d, 0x2e, 0x5f})
  {
  }

  /** What the adapter's constructor demands of its binding. */
  lemma BindingIff(b: Binding)
    ensures ValidBinding(b) <==>
            ParseIdentity(b.identity).Some? && AddressText(b.providerAddress) && AddressText(b.commerceContract) &&
            AddressText(b.paymentToken) && PositiveText(b.maxPriceAtomic)
  {
    Formats(b.providerAddress);
    Formats(b.commerceContract);
    Formats(b.paymentToken);
    Formats(b.maxPriceAtomic);
  }

  /// A negotiation

  predicate Within(s: Str, max: nat) {
    1 <= |s| <= max
  }

  predicate TermsFit(t: Terms) {
    && Within(t.deliverables, 1200) && Within(t.qualityStandards, 1200)
    && (t.successCriteria != None ==>
          |t.successCriteria.value| <= 8 &&
          forall i :: 0 <= i < |t.successCriteria.value| ==> Within(t.successCriteria.value[i], 300))
    && (t.evaluatorType != None ==> Within(t.evaluatorType.value, 64))
  }

  predicate SafeTime(n: nat) {
    1 <= n <= 9007199254740991
  }

  /** The reply has the shape of the negotiation schema. */
  predicate WellFormed(r: Reply) {
    && Within(r.taskDescription, 1600) && TermsFit(r.requestTerms) && TermsFit(r.responseTerms)
    && PositiveText(r.price) && AddressText(r.currency) && AddressText(r.verifyingContract)
    && 1 <= r.completionSeconds <= 86400 && SafeTime(r.expiresAt) && SafeTime(r.negotiatedAt)
    && Hexadecimal(r.requestHash, 64) && Hexadecimal(r.responseHash, 64) && Hexadecimal(r.negotiationHash, 64)
    && Hexadecimal(r.providerSig, 130) && (r.chainId == 56 || r.chainId == 97)
    && (r.providerAddress != None ==> AddressText(r.providerAddress.value))
  }

  /** The seller repeats the task and both requirements, in its request and in its answer. */
  predicate SameWork(task: Task, r: Reply) {
    && r.taskDescription == task.task
    && r.requestTerms.deliverables == r.responseTerms.deliverables == task.deliverables
    && r.requestTerms.qualityStandards == r.responseTerms.qualityStandards == task.qualityStandards
  }

  predicate SameDeployment(b: Binding, r: Reply) {
    r.chainId == b.identity.chainId && SameText(r.verifyingContract, b.commerceContract) &&
    SameText(r.currency, b.paymentToken)
  }

  predicate FairPrice(price: Str, chainId: nat, b: Binding)
    requires AllDigits(price) && AllDigits(b.maxPriceAtomic)
  {
    DecimalValue(price) < 115792089237316195423570985008687907853269984665640564039457584007913129639935 &&
    (chainId == 97 ==> DecimalValue(price) <= DecimalValue(b.maxPriceAtomic))
  }

  /** Neither old nor of the future, and open for at least half a minute and at most a quarter of an hour. */
  predicate Lifetime(issuedAt: nat, expiresAt: nat, now: int) {
    now - 60 <= issuedAt <= now + 5 && now + 30 <= expiresAt <= issuedAt + 900
  }

  predicate RequestHashesMatch(r: Reply, env: Env) {
    env.keccak(CanonicalSellerJson(RequestJson(r))) == r.requestHash &&
    env.keccak(CanonicalSellerJson(ResponseJson(r))) == r.responseHash
  }

  predicate HashesMatch(r: Reply, task: Str, env: Env) {
    && RequestHashesMatch(r, env)
    && env.keccak(CanonicalSellerJson(Object(ContentFields(r, task, env)))) == r.negotiationHash
  }

  /** The signer is the registered agent wallet, which is the provider; so is the wallet the reply names. */
  predicate RightWallet(b: Binding, r: Reply, id: IdentityRead, env: Env) {
    var signer := env.recover(r.negotiationHash, r.providerSig);
    && signer != None && SameText(signer.value, id.agentWallet) && SameText(id.agentWallet, b.providerAddress)
    && (r.providerAddress != None ==> SameText(r.providerAddress.value, b.providerAddress))
  }

  predicate LowerDigest(s: Str) {
    |s| == 64 && forall i :: 0 <= i < 64 ==> 0x30 <= s[i] <= 0x39 || 0x61 <= s[i] <= 0x66
  }

  /** What remains of the quote schema for the quote that is stored. */
  predicate Storable(b: Binding, signer: Str, signed: Str, id: IdentityRead, env: Env) {
    && AddressText(signer) && env.isUrl(b.endpoint) && env.isUrl(b.resultBaseUrl) && 1 <= |signed| <= 4096
    && LowerDigest(env.sha256(signed))
    && id.finalizedBlock != [] && AllDigits(id.finalizedBlock)
  }

  lemma TermsFormats(t: Terms)
    ensures ValidTerms(t) <==> TermsFit(t)
  {
  }

  lemma ReplyFormats(r: Reply)
    ensures ValidReply(r) <==> WellFormed(r)
  {
    TermsFormats(r.requestTerms);
    TermsFormats(r.responseTerms);
    Formats(r.price);
    Formats(r.currency);
    Formats(r.verifyingContract);
    Formats(r.requestHash);
    Formats(r.responseHash);
    Formats(r.negotiationHash);
    Formats(r.providerSig);
    if r.providerAddress.Some? { Formats(r.providerAddress.value); }
  }

  /** What is refused first. */
  lemma RefusedAs(b: Binding, task: Task, r: Reply, now: int, env: Env)
    requires ValidBinding(b)
    ensures Refuse(b, task, r, now, env) ==
            if !(Within(task.task, 1600) && Within(task.deliverables, 1200) && Within(task.qualityStandards, 1200))
            then Some(InvalidTask)
            else if !WellFormed(r) then Some(InvalidReply)
            else if r.providerAddress != None && !SameText(r.providerAddress.value, b.providerAddress)
            then Some(DifferentWallet)
            else if !SameWork(task, r) then Some(ChangedTask)
            else if !SameDeployment(b, r) then Some(DifferentDeployment)
            else if !FairPrice(r.price, b.identity.chainId, b) then Some(PriceOutOfRange)
            else if !Lifetime(r.negotiatedAt, r.expiresAt, now) then Some(UnsupportedLifetime)
            else if !RequestHashesMatch(r, env) then Some(HashMismatch)
            else if !HashesMatch(r, task.task, env) then Some(SignedHashMismatch)
            else None
  {
    ReplyFormats(r);
  }

  /** Nothing is refused exactly when each of these holds. */
  lemma NothingRefusedIff(b: Binding, task: Task, r: Reply, now: int, env: Env)
    requires ValidBinding(b)
    ensures Refuse(b, task, r, now, env).None? <==>
            && Within(task.task, 1600) && Within(task.deliverables, 1200) && Within(task.qualityStandards, 1200)
            && WellFormed(r)
            && (r.providerAddress != None ==> SameText(r.providerAddress.value, b.providerAddress))
            && SameWork(task, r) && SameDeployment(b, r) && FairPrice(r.price, b.identity.chainId, b)
            && Lifetime(r.negotiatedAt, r.expiresAt, now) && HashesMatch(r, task.task, env)
  {
    RefusedAs(b, task, r, now, env);
  }

  lemma DigestText(s: Str)
    ensures |s| == 64 && (forall i :: 0 <= i < 64 ==> IsDigit(s[i]) || 0x61 <= s[i] <= 0x66) <==> LowerDigest(s)
  {
  }

  lemma DraftStorable(b: Binding, task: Task, r: Reply, signer: Str, id: IdentityRead, env: Env)
    requires ValidBinding(b) && ValidReply(r)
    requires Within(task.task, 1600) && Within(task.deliverables, 1200) && Within(task.qualityStandards, 1200)
    ensures ParseQuote(DraftQuote(b, task, r, signer, id, env), env).Some? <==>
            Storable(b, signer, SignedDescription(r, task.task, env), id, env)
  {
    Formats(signer);
    DigestText(env.sha256(SignedDescription(r, task.task, env)));
  }

  /**
   A negotiation succeeds exactly when every demand on the task, the reply, the clock, the wallet
   and the size is met.
   */
  lemma NegotiateIff(b: Binding, task: Task, r: Reply, now: int, id: IdentityRead, env: Env)
    requires ValidBinding(b)
    ensures Negotiate(b, task, r, now, id, env).Success? <==>
            && Within(task.task, 1600) && Within(task.deliverables, 1200) && Within(task.qualityStandards, 1200)
            && WellFormed(r) && SameWork(task, r) && SameDeployment(b, r)
            && FairPrice(r.price, b.identity.chainId, b)
            && Lifetime(r.negotiatedAt, r.expiresAt, now)
            && HashesMatch(r, task.task, env) && RightWallet(b, r, id, env)
            && Storable(b, env.recover(r.negotiationHash, r.providerSig).value,
                        SignedDescription(r, task.task, env), id, env)
  {
    NothingRefusedIff(b, task, r, now, env);
    SucceedsIff(b, task, r, now, id, env);
    var signer := env.recover(r.negotiationHash, r.providerSig);
    if signer.Some? && Refuse(b, task, r, now, env).None? {
      ReplyFormats(r);
      DraftStorable(b, task, r, signer.value, id, env);
    }
  }

  lemma SucceedsIff(b: Binding, task: Task, r: Reply, now: int, id: IdentityRead, env: Env)
    requires ValidBinding(b)
    ensures var signer := env.recover(r.negotiationHash, r.providerSig);
            Negotiate(b, task, r, now, id, env).Success? <==>
            && Refuse(b, task, r, now, env).None? && signer.Some?
            && SameText(id.agentWallet, b.providerAddress) && SameText(signer.value, id.agentWallet)
            && |SignedDescription(r, task.task, env)| <= 4096
            && ParseQuote(DraftQuote(b, task, r, signer.value, id, env), env).Some?
  {
  }

  /** An offer with which nothing is wrong so far still fails for its signer, its size or the quote schema. */
  lemma NegotiateFailsAs(b: Binding, task: Task, r: Reply, now: int, id: IdentityRead, env: Env)
    requires ValidBinding(b) && Negotiate(b, task, r, now, id, env).Failure?
    ensures var refused, signer := Refuse(b, task, r, now, env), env.recover(r.negotiationHash, r.providerSig);
            Negotiate(b, task, r, now, id, env).error ==
            if refused.Some? then refused.value
            else if signer == None || !SameText(signer.value, id.agentWallet) ||
                    !SameText(id.agentWallet, b.providerAddress)
            then SignerMismatch
            else if |SignedDescription(r, task.task, env)| > 4096 then TooLong
            else InvalidQuote
  {
  }

  /** And what it stores: the task, the seller's terms and dates, and the binding with its namespace trimmed. */
  lemma NegotiatedQuote(b: Binding, task: Task, r: Reply, now: int, id: IdentityRead, env: Env)
    requires ValidBinding(b) && Negotiate(b, task, r, now, id, env).Success?
    ensures var q := Negotiate(b, task, r, now, id, env).value;
            && Lifetime(q.issuedAt, q.expiresAt, now)
            && q.identity == b.identity.(namespace := Trim(b.identity.namespace))
            && Some(q.providerAddress) == env.recover(r.negotiationHash, r.providerSig)
            && q.endpoint == b.endpoint && q.resultBaseUrl == b.resultBaseUrl && q.chainId == r.chainId
            && q.commerceContract == r.verifyingContract && q.paymentToken == r.currency && q.priceAtomic == r.price
            && q.requestedTask == task.task && q.deliverables == task.deliverables
            && q.qualityStandards == task.qualityStandards
            && q.issuedAt == r.negotiatedAt && q.expiresAt == r.expiresAt
            && q.completionSeconds == r.completionSeconds
            && q.negotiationHash == r.negotiationHash && q.providerSignature == r.providerSig
            && q.signedDescription == SignedDescription(r, task.task, env)
            && q.descriptionDigest == env.sha256(q.signedDescription) && q.finalizedIdentityBlock == id.finalizedBlock
  {
    NothingRefusedIff(b, task, r, now, env);
    var signer := Proofs.NegotiationChecked(b, task, r, now, id, env);
  }

  /// What is hashed and signed

  lemma LookupsAre(fs: seq<Field>)
    requires DistinctKeys(fs)
    ensures forall i :: 0 <= i < |fs| ==> Lookup(fs, fs[i].key) == Some(fs[i].value)
  {
    forall i | 0 <= i < |fs| ensures Lookup(fs, fs[i].key) == Some(fs[i].value) {
      assert fs[i] in FieldSet(fs);
      Proofs.LookupMember(fs, fs[i]);
    }
  }

  /** The members of the request that is hashed. */
  lemma RequestMembers(r: Reply)
    ensures RequestJson(r) == Object([
              Field(Text("task_description"), String(r.taskDescription)),
              Field(Text("terms"), Object(TermsFields(r.requestTerms)))])
  {
  }

  /** Those of the response: `accepted` is true, and the terms carry price and currency. */
  lemma ResponseMembers(r: Reply)
    ensures ResponseJson(r) == Object([
              Field(Text("accepted"), Bool(true)),
              Field(Text("terms"), Object(TermsFields(r.responseTerms) + [
                Field(Text("price"), String(r.price)), Field(Text("currency"), String(r.currency))])),
              Field(Text("estimated_completion_seconds"), Num(r.completionSeconds)),
              Field(Text("quote_expires_at"), Num(r.expiresAt))])
  {
  }

  /** Optional terms are members only if the seller gave them. */
  lemma TermsMembers(t: Terms)
    ensures TermsFields(t) ==
            [Field(Text("deliverables"), String(t.deliverables)),
             Field(Text("quality_standards"), String(t.qualityStandards))]
            + (if t.successCriteria == None then []
               else [Field(Text("success_criteria"), Array(Strings(t.successCriteria.value)))])
            + (if t.evaluationRequired == None then []
               else [Field(Text("evaluation_required"), Bool(t.evaluationRequired.value))])
            + (if t.evaluatorType == None then []
               else [Field(Text("evaluator_type"), String(t.evaluatorType.value))])
  {
  }

  /** The content that is signed, and the two members that are stored with it. */
  lemma SignedMembers(r: Reply, task: Str, env: Env)
    ensures ContentFields(r, task, env) == [
              Field(Text("version"), Num(1)),
              Field(Text("negotiated_at"), Num(r.negotiatedAt)),
              Field(Text("quote_expires_at"), Num(r.expiresAt)),
              Field(Text("task"), String(Sanitize(task))),
              Field(Text("terms"), Object(SignedTerms(r.responseTerms))),
              Field(Text("price"), String(r.price)),
              Field(Text("currency"), String(r.currency)),
              Field(Text("chain_id"), Num(r.chainId)),
              Field(Text("verifying_contract"), String(env.checksum(r.verifyingContract)))]
    ensures SignatureFields(r) == [
              Field(Text("negotiation_hash"), String(r.negotiationHash)),
              Field(Text("provider_sig"), String(r.providerSig))]
  {
  }

  lemma SignedTermsMembers(t: Terms)
    ensures SignedTerms(t) ==
            [Field(Text("deliverables"), String(Sanitize(t.deliverables))),
             Field(Text("quality_standards"), String(Sanitize(t.qualityStandards)))]
            + (if t.successCriteria == None || t.successCriteria.value == [] then []
               else [Field(Text("success_criteria"), Array(Strings(SanitizeAll(t.successCriteria.value))))])
  {
  }

  /// A stored quote

  predicate QuoteFits(q: Quote, env: Env) {
    && AddressText(q.providerAddress) && env.isUrl(q.endpoint) && env.isUrl(q.resultBaseUrl)
    && (q.chainId == 56 || q.chainId == 97) && AddressText(q.commerceContract) && AddressText(q.paymentToken)
    && PositiveText(q.priceAtomic)
    && Within(q.requestedTask, 1600) && Within(q.deliverables, 1200) && Within(q.qualityStandards, 1200)
    && SafeTime(q.issuedAt) && SafeTime(q.expiresAt) && 1 <= q.completionSeconds <= 86400
    && Hexadecimal(q.negotiationHash, 64) && Hexadecimal(q.providerSignature, 130)
    && Within(q.signedDescription, 4096) && LowerDigest(q.descriptionDigest)
    && q.finalizedIdentityBlock != [] && AllDigits(q.finalizedIdentityBlock)
  }

  lemma QuoteFormats(q: Quote, env: Env)
    ensures ParseQuote(q, env).Some? <==> ParseIdentity(q.identity).Some? && QuoteFits(q, env)
  {
    Formats(q.providerAddress);
    Formats(q.commerceContract);
    Formats(q.paymentToken);
    Formats(q.priceAtomic);
    Formats(q.negotiationHash);
    Formats(q.providerSignature);
    DigestText(q.descriptionDigest);
  }

  /** The quote names the adapter's own seller, deployment and network, at a price it may pay. */
  predicate OfBinding(b: Binding, q: Quote)
    requires AllDigits(q.priceAtomic) && AllDigits(b.maxPriceAtomic)
  {
    && q.endpoint == b.endpoint && q.resultBaseUrl == b.resultBaseUrl
    && q.identity.namespace == b.identity.namespace && q.identity.agentId == b.identity.agentId
    && SameText(q.identity.identityRegistry, b.identity.identityRegistry)
    && q.chainId == q.identity.chainId == b.identity.chainId
    && SameText(q.providerAddress, b.providerAddress) && SameText(q.commerceContract, b.commerceContract)
    && SameText(q.paymentToken, b.paymentToken) && FairPrice(q.priceAtomic, q.chainId, b)
  }

  /** The description carries the signature of the provider over exactly the other members. */
  predicate SignedByProvider(q: Quote, description: seq<Field>, env: Env) {
    var signer := env.recover(q.negotiationHash, q.providerSignature);
    && Lookup(description, Text("provider_sig")) == Some(String(q.providerSignature))
    && Lookup(description, Text("negotiation_hash")) == Some(String(q.negotiationHash))
    && env.keccak(CanonicalSellerJson(Object(Without(description, Text("provider_sig"), Text("negotiation_hash")))))
       == q.negotiationHash
    && signer != None && SameText(signer.value, q.providerAddress)
  }

  /** And those members are the terms of the quote. */
  predicate StatesTerms(q: Quote, description: seq<Field>) {
    var content := Without(description, Text("provider_sig"), Text("negotiation_hash"));
    StatesPrice(q, content) && StatesWork(q, content)
  }

  predicate StatesPrice(q: Quote, content: seq<Field>) {
    && Lookup(content, Text("price")) == Some(String(q.priceAtomic))
    && SameText(AsText(Lookup(content, Text("currency"))), q.paymentToken)
    && Lookup(content, Text("chain_id")) == Some(Num(q.chainId))
    && SameText(AsText(Lookup(content, Text("verifying_contract"))), q.commerceContract)
  }

  predicate StatesWork(q: Quote, content: seq<Field>) {
    var terms := Members(Lookup(content, Text("terms")));
    && Lookup(content, Text("task")) == Some(String(Sanitize(q.requestedTask)))
    && Lookup(terms, Text("deliverables")) == Some(String(Sanitize(q.deliverables)))
    && Lookup(terms, Text("quality_standards")) == Some(String(Sanitize(q.qualityStandards)))
    && Lookup(content, Text("quote_expires_at")) == Some(Num(q.expiresAt))
    && Lookup(content, Text("negotiated_at")) == Some(Num(q.issuedAt))
  }

  /** `assertQuote` accepts exactly these quotes. */
  lemma QuoteAcceptedIff(b: Binding, q: Quote, env: Env)
    requires ValidBinding(b)
    ensures AssertQuote(b, q, env) <==>
            && ParseIdentity(q.identity).Some? && QuoteFits(q, env)
            && env.sha256(q.signedDescription) == q.descriptionDigest && OfBinding(b, q)
            && var parsed := Parse(q.signedDescription, env.num);
               parsed.Accept? &&
               SignedByProvider(q, Members(Some(parsed.value)), env) && StatesTerms(q, Members(Some(parsed.value)))
  {
    QuoteFormats(q, env);
    var parsed := Parse(q.signedDescription, env.num);
    if parsed.Accept? {
      DescriptionIs(q, Members(Some(parsed.value)), env);
    }
  }

  lemma DescriptionIs(q: Quote, description: seq<Field>, env: Env)
    ensures MatchesDescription(q, description, env) <==>
            SignedByProvider(q, description, env) && StatesTerms(q, description)
  {
  }

  /// A job and its result

  /** `assertJob` accepts exactly these reads. */
  lemma JobAcceptedIff(b: Binding, q: Quote, jobId: Str, buyer: Str, job: R.JobRead, allowed: set<Lifecycle.State>,
                       env: Env)
    requires ValidBinding(b)
    ensures R.AssertJob(b, q, jobId, buyer, job, allowed, env).None? <==>
            && AssertQuote(b, q, env)
            && PositiveText(jobId) && DecimalValue(jobId) <= UINT256_MAX && AddressText(buyer)
            && job.jobId == jobId && job.chainId == q.chainId && job.state in allowed
            && SameText(job.client, buyer) && SameText(job.provider, q.providerAddress)
            && SameText(job.commerceContract, q.commerceContract) && SameText(job.paymentToken, q.paymentToken)
            && job.budgetAtomic == q.priceAtomic && job.description == q.signedDescription
  {
    Formats(jobId);
    Formats(buyer);
  }

  /** The members without `success`, if there is one. */
  function Answered(fields: seq<Field>): seq<Field> {
    if Lookup(fields, Text("success")) == None then fields else Without(fields, Text("success"), Text("success"))
  }

  /** An answer that names its own pointer and submission instead of the deployment. */
  predicate PointsBack(fields: seq<Field>, url: Str) {
    && Lookup(fields, Text("chain_id")) == None && Lookup(fields, Text("contracts")) == None
    && Lookup(fields, Text("deliverable_url")) == Some(String(url))
    && Lookup(fields, Text("tx_hash")) != None && Lookup(fields, Text("tx_hash")).value.String?
    && Hexadecimal(Lookup(fields, Text("tx_hash")).value.s, 64)
  }

  /** What the answer stands for, and the three ways in which it can be refused or completed. */
  lemma DocumentCases(fields: seq<Field>, chainId: nat, d: R.Deployment, url: Str, submission: Option<Str>)
    ensures var success, plain := Lookup(fields, Text("success")), Answered(fields);
            R.Document(fields, chainId, d, url, submission) ==
            if success != None && success.value != Bool(true) then Failure(R.Unsuccessful)
            else if !PointsBack(plain, url) then Success(plain)
            else if submission != None && !SameText(Lookup(plain, Text("tx_hash")).value.s, submission.value)
            then Failure(R.OtherSubmission)
            else Success(Without(plain, Text("tx_hash"), Text("deliverable_url")) + [
              Field(Text("chain_id"), Num(chainId)),
              Field(Text("contracts"), Object([
                Field(Text("commerce"), String(d.commerce)), Field(Text("router"), String(d.router)),
                Field(Text("policy"), String(d.policy))]))])
  {
    var hash := Lookup(Answered(fields), Text("tx_hash"));
    if hash.Some? && hash.value.String? { Formats(hash.value.s); }
  }

  predicate TextOf(v: Option<Json>, max: nat) {
    v != None && v.value.String? && Within(v.value.s, max)
  }

  predicate AddressOf(fields: seq<Field>, key: Str, expected: Str) {
    Lookup(fields, key) != None && Lookup(fields, key).value.String? &&
    AddressText(Lookup(fields, key).value.s) && SameText(Lookup(fields, key).value.s, expected)
  }

  predicate IsBody(response: Option<Json>) {
    && response != None && response.value.Object?
    && KeySet(response.value.fields) <= {Text("content"), Text("content_type")}
    && TextOf(Lookup(response.value.fields, Text("content")), 48000)
    && (Lookup(response.value.fields, Text("content_type")) != None ==>
          TextOf(Lookup(response.value.fields, Text("content_type")), 128))
  }

  /** Exactly the three contracts of the deployment. */
  predicate NamesContracts(contracts: Option<Json>, d: R.Deployment) {
    && contracts != None && contracts.value.Object?
    && KeySet(contracts.value.fields) == {Text("commerce"), Text("router"), Text("policy")}
    && AddressOf(contracts.value.fields, Text("commerce"), d.commerce)
    && AddressOf(contracts.value.fields, Text("router"), d.router)
    && AddressOf(contracts.value.fields, Text("policy"), d.policy)
  }

  /** The six members of a manifest for this job on this deployment, and no others. */
  predicate ManifestOf(fields: seq<Field>, jobId: Str, chainId: nat, d: R.Deployment) {
    var id := Lookup(fields, Text("job_id"));
    && KeySet(fields) == {Text("version"), Text("job_id"), Text("chain_id"), Text("contracts"), Text("response"),
                          Text("metadata")}
    && Lookup(fields, Text("version")) == Some(Num(1))
    && id == Some(Number(jobId)) && PositiveText(jobId) && DecimalValue(jobId) <= 9007199254740991
    && (chainId == 56 || chainId == 97) && Lookup(fields, Text("chain_id")) == Some(Num(chainId))
    && NamesContracts(Lookup(fields, Text("contracts")), d)
    && IsBody(Lookup(fields, Text("response")))
    && Lookup(fields, Text("metadata")) != None && Lookup(fields, Text("metadata")).value.Object?
  }

  lemma AddressMembers(fields: seq<Field>, key: Str, expected: Str)
    ensures AddressOf(fields, key, expected) <==>
            R.IsAddressMember(fields, key) && SameText(AsText(Lookup(fields, key)), expected)
  {
    if Lookup(fields, key).Some? && Lookup(fields, key).value.String? { Formats(Lookup(fields, key).value.s); }
  }

  lemma NumInjective(m: nat, n: nat)
    ensures Num(m) == Num(n) <==> m == n
  {
    if Num(m) == Num(n) { Proofs.NumInjective(m, n); }
  }

  lemma JobIdMember(fields: seq<Field>, jobId: Str)
    ensures var id := Lookup(fields, Text("job_id"));
            R.IsSafeNumber(id) && AsText(id) == jobId <==>
            id == Some(Number(jobId)) && PositiveText(jobId) && DecimalValue(jobId) <= 9007199254740991
  {
    var id := Lookup(fields, Text("job_id"));
    Formats(jobId);
    if R.IsSafeNumber(id) && AsText(id) == jobId {
      ZeroIsNot(jobId);
    }
    if IsPositiveDecimal(jobId) {
      DecimalPositive(jobId);
    }
  }

  lemma ZeroIsNot(s: Str)
    requires IsCanonicalDecimal(s) && DecimalValue(s) >= 1
    ensures IsPositiveDecimal(s)
  {
    var zero: Str := [0x30];
    assert zero[..0] == [] && DecimalValue(zero) == 0;
    assert |s| == 1 ==> s == [s[0]];
  }

  lemma ContractsIff(contracts: Option<Json>, d: R.Deployment)
    ensures NamesContracts(contracts, d) <==> R.IsContracts(contracts) && R.MatchesDeployment(Members(contracts), d)
  {
    var members := Members(contracts);
    AddressMembers(members, Text("commerce"), d.commerce);
    AddressMembers(members, Text("router"), d.router);
    AddressMembers(members, Text("policy"), d.policy);
  }

  lemma ResponseIff(response: Option<Json>)
    ensures IsBody(response) <==> R.IsResponse(response)
  {
  }

  lemma ManifestIff(fields: seq<Field>, jobId: Str, chainId: nat, d: R.Deployment)
    ensures R.IsManifest(fields) && R.MatchesJob(fields, jobId, chainId, d) <==> ManifestOf(fields, jobId, chainId, d)
  {
    ContractsIff(Lookup(fields, Text("contracts")), d);
    ResponseIff(Lookup(fields, Text("response")));
    JobIdMember(fields, jobId);
    NumInjective(chainId, 56);
    NumInjective(chainId, 97);
  }

  /** `readResult` returns exactly the manifest whose canonical text has the digest committed on the chain. */
  lemma ResultIff(b: Binding, d: R.Deployment, q: Quote, jobId: Str, buyer: Str, url: Str, submission: Option<Str>,
                  job: R.JobRead, body: Json, safe: Json -> bool, env: Env)
    requires ValidBinding(b)
    ensures var document := R.Document(Members(Some(body)), q.chainId, d, url, submission);
            forall v :: R.ReadResult(b, d, q, jobId, buyer, url, submission, job, body, safe, env) == Success(v) <==>
              && R.AssertJob(b, q, jobId, buyer, job, {Lifecycle.Submitted, Lifecycle.Completed, Lifecycle.Rejected},
                             env).None?
              && job.deliverable != None && Hexadecimal(job.deliverable.value, 64)
              && document.Success? && v == Object(document.value) && safe(v)
              && ManifestOf(document.value, jobId, q.chainId, d)
              && env.keccak(CanonicalSellerJson(v)) == job.deliverable.value
  {
    if job.deliverable.Some? {
      Formats(job.deliverable.value);
      BodyIff(d, q.chainId, jobId, url, submission, job.deliverable.value, body, safe, env);
    }
  }

  lemma BodyIff(d: R.Deployment, chainId: nat, jobId: Str, url: Str, submission: Option<Str>, digest: Str,
                body: Json, safe: Json -> bool, env: Env)
    ensures var document := R.Document(Members(Some(body)), chainId, d, url, submission);
            forall v :: R.ReadBody(d, chainId, jobId, url, submission, digest, body, safe, env) == Success(v) <==>
              document.Success? && v == Object(document.value) && safe(v) &&
              ManifestOf(document.value, jobId, chainId, d) && env.keccak(CanonicalSellerJson(v)) == digest
  {
    var document := R.Document(Members(Some(body)), chainId, d, url, submission);
    if document.Success? { ManifestIff(document.value, jobId, chainId, d); }
  }

  /** A job that is not accepted is refused with the first of these. */
  lemma JobRefusedAs(b: Binding, q: Quote, jobId: Str, buyer: Str, job: R.JobRead, allowed: set<Lifecycle.State>,
                     env: Env)
    requires ValidBinding(b)
    ensures R.AssertJob(b, q, jobId, buyer, job, allowed, env) in {None, Some(
              if !AssertQuote(b, q, env) then R.QuoteRefused
              else if !PositiveText(jobId) || DecimalValue(jobId) > UINT256_MAX then R.InvalidJobId
              else if !AddressText(buyer) then R.InvalidBuyer
              else R.JobMismatch)}
  {
    Formats(jobId);
    Formats(buyer);
  }

  /** And a result that is not returned fails with the first of these. */
  lemma ResultFailsAs(b: Binding, d: R.Deployment, q: Quote, jobId: Str, buyer: Str, url: Str, submission: Option<Str>,
                      job: R.JobRead, body: Json, safe: Json -> bool, env: Env)
    requires ValidBinding(b)
    requires R.ReadResult(b, d, q, jobId, buyer, url, submission, job, body, safe, env).Failure?
    ensures var refused := R.AssertJob(b, q, jobId, buyer, job, R.RESULT_STATES, env);
            var document := R.Document(Members(Some(body)), q.chainId, d, url, submission);
            R.ReadResult(b, d, q, jobId, buyer, url, submission, job, body, safe, env).error ==
            if refused.Some? then refused.value
            else if job.deliverable == None || !Hexadecimal(job.deliverable.value, 64) then R.NoDigest
            else if document.Failure? then document.error
            else if !R.IsManifest(document.value) then R.InvalidManifest
            else if !safe(Object(document.value)) then R.UnsafePayload
            else R.ResultMismatch
  {
    if job.deliverable.Some? { Formats(job.deliverable.value); }
  }
}
