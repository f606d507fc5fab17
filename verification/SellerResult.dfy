/**
 The delivery side of the seller adapter: `assertJob` ties a stored quote to the job read from
 the chain, `readResult` ties a seller's answer to the digest committed on the chain.
 */
module SellerResult {
  import opened Wrappers
  import opened JsonValues
  import opened JsonText
  import opened JsonParser
  import opened SellerQuote
  import Proofs = SellerQuoteProofs
  import Lifecycle

  datatype JobRead = JobRead(
    jobId: Str, chainId: nat, commerceContract: Str, client: Str, provider: Str, paymentToken: Str,
    budgetAtomic: Str, description: Str, state: Lifecycle.State, deliverable: Option<Str>)

  datatype Refusal =
    | QuoteRefused | InvalidJobId | InvalidBuyer | JobMismatch | NoDigest | Unsuccessful | OtherSubmission
    | InvalidManifest | UnsafePayload | ResultMismatch

  predicate IsJobId(s: Str) {
    IsPositiveDecimal(s) && DecimalValue(s) <= UINT256_MAX
  }

  predicate JobMatches(q: Quote, jobId: Str, buyer: Str, job: JobRead, allowed: set<Lifecycle.State>) {
    && job.jobId == jobId && job.chainId == q.chainId && SameText(job.commerceContract, q.commerceContract)
    && SameText(job.client, buyer) && SameText(job.provider, q.providerAddress)
    && SameText(job.paymentToken, q.paymentToken) && job.budgetAtomic == q.priceAtomic
    && job.description == q.signedDescription && job.state in allowed
  }

  /** `assertJob`, given what the chain read returned. */
  function AssertJob(b: Binding, q: Quote, jobId: Str, buyer: Str, job: JobRead, allowed: set<Lifecycle.State>,
                     env: Env): Option<Refusal>
    requires ValidBinding(b)
  {
    if !AssertQuote(b, q, env) then Some(QuoteRefused)
    else if !IsJobId(jobId) then Some(InvalidJobId)
    else if !IsNonZeroAddress(buyer) then Some(InvalidBuyer)
    else if !JobMatches(q, jobId, buyer, job, allowed) then Some(JobMismatch)
    else None
  }

  /**
   One job on the chain accepts one offer only: any two quotes that pass for the same read agree
   on the price, the dates, the deployment, the seller and the sanitized work, and the price is
   the job's budget.
   */
  lemma JobBindsQuote(b: Binding, p: Quote, q: Quote, jobId: Str, buyer: Str, job: JobRead,
                      first: set<Lifecycle.State>, second: set<Lifecycle.State>, env: Env)
    requires ValidBinding(b)
    ensures AssertJob(b, p, jobId, buyer, job, first, env).None? &&
            AssertJob(b, q, jobId, buyer, job, second, env).None? ==>
              Proofs.SameOffer(p, q) && p.priceAtomic == job.budgetAtomic
  {
    JobNeedsQuote(b, p, jobId, buyer, job, first, env);
    JobNeedsQuote(b, q, jobId, buyer, job, second, env);
    BoundAlike(b, p, q, env);
  }

  /** What `assertJob` has established when it returns. */
  lemma JobNeedsQuote(b: Binding, q: Quote, jobId: Str, buyer: Str, job: JobRead,
                      allowed: set<Lifecycle.State>, env: Env)
    requires ValidBinding(b)
    ensures AssertJob(b, q, jobId, buyer, job, allowed, env).None? ==>
              AssertQuote(b, q, env) && q.signedDescription == job.description && q.priceAtomic == job.budgetAtomic
  {
  }

  lemma BoundAlike(b: Binding, p: Quote, q: Quote, env: Env)
    requires ValidBinding(b)
    ensures AssertQuote(b, p, env) && AssertQuote(b, q, env) && p.signedDescription == q.signedDescription
            ==> Proofs.SameOffer(p, q)
  {
    if p.signedDescription == q.signedDescription {
      Proofs.DescriptionBindsQuote(b, p, q, env);
    }
  }

  /**
   From offer to job: a negotiated quote whose description, price and parties were put on the
   chain passes for that job in every allowed state, under a binding whose namespace is trimmed.
   */
  lemma NegotiatedJobAccepted(b: Binding, task: Task, r: Reply, now: int, id: IdentityRead, jobId: Str, buyer: Str,
                              job: JobRead, allowed: set<Lifecycle.State>, env: Env)
    requires ValidBinding(b) && Sound(env) && Trim(b.identity.namespace) == b.identity.namespace
    requires IsJobId(jobId) && IsNonZeroAddress(buyer) && job.state in allowed
    requires job.jobId == jobId && job.chainId == r.chainId && job.budgetAtomic == r.price
    requires job.description == SignedDescription(r, task.task, env)
    requires SameText(job.client, buyer) && SameText(job.provider, b.providerAddress)
    requires SameText(job.commerceContract, b.commerceContract) && SameText(job.paymentToken, b.paymentToken)
    ensures var quote := Negotiate(b, task, r, now, id, env);
            quote.Success? ==> AssertJob(b, quote.value, jobId, buyer, job, allowed, env).None?
  {
    Proofs.NegotiatedQuoteAccepted(b, task, r, now, id, env);
    if Negotiate(b, task, r, now, id, env).Success? {
      var signer := Proofs.NegotiationChecked(b, task, r, now, id, env);
    }
  }

  /// Results

  const SUCCESS: Str := Text("success")
  const CONTRACTS: Str := Text("contracts")
  const DELIVERABLE_URL: Str := Text("deliverable_url")
  const TX_HASH: Str := Text("tx_hash")
  const COMMERCE: Str := Text("commerce")
  const ROUTER: Str := Text("router")
  const POLICY: Str := Text("policy")
  const JOB_ID: Str := Text("job_id")
  const RESPONSE: Str := Text("response")
  const CONTENT: Str := Text("content")
  const CONTENT_TYPE: Str := Text("content_type")
  const METADATA: Str := Text("metadata")

  lemma WireKeysDiffer()
    ensures |SUCCESS| == 7 && |TX_HASH| == 7 && |VERSION| == 7 && |CHAIN_ID| == 8 && |CONTRACTS| == 9
    ensures |DELIVERABLE_URL| == 15 && |JOB_ID| == 6 && |RESPONSE| == 8 && |METADATA| == 8
    ensures |COMMERCE| == 8 && |ROUTER| == 6 && |POLICY| == 6
    ensures SUCCESS[0] == 0x73 && TX_HASH[0] == 0x74 && VERSION[0] == 0x76 && CHAIN_ID[0] == 0x63
    ensures RESPONSE[0] == 0x72 && METADATA[0] == 0x6d && ROUTER[0] == 0x72 && POLICY[0] == 0x70
  {
  }

  datatype Deployment = Deployment(commerce: Str, router: Str, policy: Str)

  function ContractsJson(d: Deployment): Json {
    Object([Field(COMMERCE, String(d.commerce)), Field(ROUTER, String(d.router)), Field(POLICY, String(d.policy))])
  }

  /** The answer leaves out the deployment fields and carries a pointer and a submission hash instead. */
  predicate IsProjected(fields: seq<Field>, url: Str) {
    && Lookup(fields, CHAIN_ID).None? && Lookup(fields, CONTRACTS).None?
    && Lookup(fields, DELIVERABLE_URL) == Some(String(url))
    && Lookup(fields, TX_HASH).Some? && Lookup(fields, TX_HASH).value.String? && IsHash(Lookup(fields, TX_HASH).value.s)
  }

  /** The members the answer stands for. */
  function Document(fields: seq<Field>, chainId: nat, d: Deployment, url: Str, submission: Option<Str>)
      : Result<seq<Field>, Refusal>
  {
    var success := Lookup(fields, SUCCESS);
    var plain := if success.None? then fields else Without(fields, SUCCESS, SUCCESS);
    if success.Some? && success.value != Bool(true) then Failure(Unsuccessful)
    else if !IsProjected(plain, url) then Success(plain)
    else if submission.Some? && !SameText(Lookup(plain, TX_HASH).value.s, submission.value) then
      Failure(OtherSubmission)
    else Success(Without(plain, TX_HASH, DELIVERABLE_URL) +
                 [Field(CHAIN_ID, Num(chainId)), Field(CONTRACTS, ContractsJson(d))])
  }

  predicate IsSafeNumber(v: Option<Json>) {
    v.Some? && v.value.Number? && IsCanonicalDecimal(v.value.lexeme) && IsTimestamp(DecimalValue(v.value.lexeme))
  }

  predicate IsAddressMember(fields: seq<Field>, key: Str) {
    Lookup(fields, key).Some? && Lookup(fields, key).value.String? && IsNonZeroAddress(Lookup(fields, key).value.s)
  }

  predicate IsTextMember(v: Option<Json>, max: nat) {
    v.Some? && v.value.String? && Bounded(v.value.s, max)
  }

  predicate IsContracts(contracts: Option<Json>) {
    && contracts.Some? && contracts.value.Object? && KeySet(contracts.value.fields) == {COMMERCE, ROUTER, POLICY}
    && IsAddressMember(contracts.value.fields, COMMERCE) && IsAddressMember(contracts.value.fields, ROUTER)
    && IsAddressMember(contracts.value.fields, POLICY)
  }

  predicate IsResponse(response: Option<Json>) {
    && response.Some? && response.value.Object? && KeySet(response.value.fields) <= {CONTENT, CONTENT_TYPE}
    && IsTextMember(Lookup(response.value.fields, CONTENT), 48000)
    && (Lookup(response.value.fields, CONTENT_TYPE).Some? ==>
          IsTextMember(Lookup(response.value.fields, CONTENT_TYPE), 128))
  }

  /** `externalSellerManifestSchema`: these members and no others. */
  predicate IsManifest(fields: seq<Field>) {
    && KeySet(fields) == {VERSION, JOB_ID, CHAIN_ID, CONTRACTS, RESPONSE, METADATA}
    && Lookup(fields, VERSION) == Some(Num(1)) && IsSafeNumber(Lookup(fields, JOB_ID))
    && (Lookup(fields, CHAIN_ID) == Some(Num(56)) || Lookup(fields, CHAIN_ID) == Some(Num(97)))
    && IsContracts(Lookup(fields, CONTRACTS)) && IsResponse(Lookup(fields, RESPONSE))
    && Lookup(fields, METADATA).Some? && Lookup(fields, METADATA).value.Object?
  }

  predicate MatchesJob(fields: seq<Field>, jobId: Str, chainId: nat, d: Deployment) {
    && AsText(Lookup(fields, JOB_ID)) == jobId && Lookup(fields, CHAIN_ID) == Some(Num(chainId))
    && MatchesDeployment(Members(Lookup(fields, CONTRACTS)), d)
  }

  predicate MatchesDeployment(contracts: seq<Field>, d: Deployment) {
    && SameText(AsText(Lookup(contracts, COMMERCE)), d.commerce)
    && SameText(AsText(Lookup(contracts, ROUTER)), d.router)
    && SameText(AsText(Lookup(contracts, POLICY)), d.policy)
  }

  /** The checks on the manifest itself. */
  function CheckManifest(fields: seq<Field>, jobId: Str, chainId: nat, d: Deployment, digest: Str, safe: Json -> bool,
                         env: Env): Result<Json, Refusal>
  {
    if !IsManifest(fields) then Failure(InvalidManifest)
    else if !safe(Object(fields)) then Failure(UnsafePayload)
    else if !MatchesJob(fields, jobId, chainId, d) || env.keccak(CanonicalSellerJson(Object(fields))) != digest
    then Failure(ResultMismatch)
    else Success(Object(fields))
  }

  /** What the body must be, once the job is accepted and has a digest. */
  function ReadBody(d: Deployment, chainId: nat, jobId: Str, url: Str, submission: Option<Str>, digest: Str,
                    body: Json, safe: Json -> bool, env: Env): Result<Json, Refusal>
  {
    var fields :- Document(Members(Some(body)), chainId, d, url, submission);
    CheckManifest(fields, jobId, chainId, d, digest, safe, env)
  }

  const RESULT_STATES: set<Lifecycle.State> := {Lifecycle.Submitted, Lifecycle.Completed, Lifecycle.Rejected}

  /** `readResult`, given the chain read and the body the seller returned; `safe` is the payload check. */
  function ReadResult(b: Binding, d: Deployment, q: Quote, jobId: Str, buyer: Str, url: Str, submission: Option<Str>,
                      job: JobRead, body: Json, safe: Json -> bool, env: Env): Result<Json, Refusal>
    requires ValidBinding(b)
  {
    var refused := AssertJob(b, q, jobId, buyer, job, RESULT_STATES, env);
    if refused.Some? then Failure(refused.value)
    else if job.deliverable.None? || !IsHash(job.deliverable.value) then Failure(NoDigest)
    else ReadBody(d, q.chainId, jobId, url, submission, job.deliverable.value, body, safe, env)
  }

  /// Members taken out and put back

  lemma {:induction false} WithoutDistinct(fs: seq<Field>, a: Str, b: Str)
    requires DistinctKeys(fs)
    ensures DistinctKeys(Without(fs, a, b))
    decreases |fs|
  {
    if fs != [] {
      var w := Without(fs[1..], a, b);
      WithoutDistinct(fs[1..], a, b);
      Proofs.WithoutSet(fs[1..], a, b);
      forall i | 0 <= i < |w| ensures w[i].key != fs[0].key {
        assert w[i] in FieldSet(w);
        assert w[i] in FieldSet(fs[1..]);
        var j :| 0 <= j < |fs[1..]| && fs[1..][j] == w[i];
        assert fs[j + 1] == w[i];
      }
    }
  }

  /** Well-behaved members: no repeated keys, and numbers as JavaScript prints them. */
  ghost predicate Sane(fields: seq<Field>, num: Str -> Str) {
    Unambiguous(Object(fields)) && Printable(Object(fields), num)
  }

  lemma SaneMembers(fields: seq<Field>, num: Str -> Str)
    ensures Sane(fields, num) <==>
              DistinctKeys(fields) &&
              forall f :: f in FieldSet(fields) ==> Unambiguous(f.value) && Printable(f.value, num)
  {
    if DistinctKeys(fields) && forall f :: f in FieldSet(fields) ==> Unambiguous(f.value) && Printable(f.value, num) {
      forall i | 0 <= i < |fields| ensures Unambiguous(fields[i].value) && Printable(fields[i].value, num) {
        assert fields[i] in FieldSet(fields);
      }
    }
  }

  lemma WithoutSane(fields: seq<Field>, a: Str, b: Str, num: Str -> Str)
    requires Sane(fields, num)
    ensures Sane(Without(fields, a, b), num)
  {
    SaneMembers(fields, num);
    WithoutDistinct(fields, a, b);
    Proofs.WithoutSet(fields, a, b);
    SaneMembers(Without(fields, a, b), num);
  }

  lemma {:induction false} LookupNone(fields: seq<Field>, key: Str)
    ensures Lookup(fields, key).None? <==> forall f :: f in FieldSet(fields) ==> f.key != key
    decreases |fields|
  {
    if fields != [] {
      LookupNone(fields[1..], key);
      assert fields == [fields[0]] + fields[1..];
      FieldSetCons(fields[0], fields[1..]);
    }
  }

  lemma AppendFields(xs: seq<Field>, ys: seq<Field>)
    ensures FieldSet(xs + ys) == FieldSet(xs) + FieldSet(ys)
  {
  }

  lemma ContractsSane(chainId: nat, d: Deployment, env: Env)
    requires Sound(env) && chainId <= MAX_SAFE
    ensures Sane([Field(CHAIN_ID, Num(chainId)), Field(CONTRACTS, ContractsJson(d))], env.num)
  {
    WireKeysDiffer();
    DecimalIsNumberText(chainId);
    var fields := ContractsJson(d).fields;
    assert DistinctKeys(fields);
    assert forall i :: 0 <= i < |fields| ==> Unambiguous(fields[i].value) && Printable(fields[i].value, env.num);
    assert Unambiguous(ContractsJson(d)) && Printable(ContractsJson(d), env.num);
    assert Printable(Num(chainId), env.num);
  }

  lemma AppendSane(xs: seq<Field>, ys: seq<Field>, num: Str -> Str)
    requires Sane(xs, num) && Sane(ys, num)
    requires forall f, g :: f in FieldSet(xs) && g in FieldSet(ys) ==> f.key != g.key
    ensures Sane(xs + ys, num)
  {
    SaneMembers(xs, num);
    SaneMembers(ys, num);
    AppendFields(xs, ys);
    var all := xs + ys;
    forall i, j | 0 <= i < j < |all| ensures all[i].key != all[j].key {
      if i < |xs| <= j {
        assert xs[i] in FieldSet(xs) && ys[j - |xs|] in FieldSet(ys);
      }
    }
    SaneMembers(all, num);
  }

  lemma RestoredSane(plain: seq<Field>, chainId: nat, d: Deployment, env: Env)
    requires Sound(env) && chainId <= MAX_SAFE && Sane(plain, env.num)
    requires Lookup(plain, CHAIN_ID).None? && Lookup(plain, CONTRACTS).None?
    ensures Sane(Without(plain, TX_HASH, DELIVERABLE_URL) +
                 [Field(CHAIN_ID, Num(chainId)), Field(CONTRACTS, ContractsJson(d))], env.num)
  {
    var rest := Without(plain, TX_HASH, DELIVERABLE_URL);
    var added := [Field(CHAIN_ID, Num(chainId)), Field(CONTRACTS, ContractsJson(d))];
    LookupNone(plain, CHAIN_ID);
    LookupNone(plain, CONTRACTS);
    Proofs.WithoutSet(plain, TX_HASH, DELIVERABLE_URL);
    WithoutSane(plain, TX_HASH, DELIVERABLE_URL, env.num);
    ContractsSane(chainId, d, env);
    assert forall g :: g in FieldSet(added) ==> g.key == CHAIN_ID || g.key == CONTRACTS;
    AppendSane(rest, added, env.num);
  }

  lemma DocumentSane(fields: seq<Field>, chainId: nat, d: Deployment, url: Str, submission: Option<Str>, env: Env)
    requires Sound(env) && chainId <= MAX_SAFE && Sane(fields, env.num)
    requires Document(fields, chainId, d, url, submission).Success?
    ensures Sane(Document(fields, chainId, d, url, submission).value, env.num)
  {
    WithoutSane(fields, SUCCESS, SUCCESS, env.num);
    var plain := if Lookup(fields, SUCCESS).None? then fields else Without(fields, SUCCESS, SUCCESS);
    if IsProjected(plain, url) {
      RestoredSane(plain, chainId, d, env);
    }
  }

  /// What an accepted result is

  /**
   The digest on the chain admits one result: whatever the seller answers, and in whatever
   wrapping, two accepted results of a job are equal up to key order unless their two texts
   collide under the hash.
   */
  lemma OneResultPerDigest(b: Binding, d: Deployment, p: Quote, q: Quote, jobId: Str, buyer: Str, urlA: Str, urlB: Str,
                           hashA: Option<Str>, hashB: Option<Str>, job: JobRead, bodyA: Json, bodyB: Json,
                           safe: Json -> bool, env: Env)
    requires ValidBinding(b) && Sound(env)
    requires Sane(Members(Some(bodyA)), env.num) && Sane(Members(Some(bodyB)), env.num)
    ensures var x := ReadResult(b, d, p, jobId, buyer, urlA, hashA, job, bodyA, safe, env);
            var y := ReadResult(b, d, q, jobId, buyer, urlB, hashB, job, bodyB, safe, env);
            x.Success? && y.Success? ==>
              Same(x.value, y.value) ||
              (CanonicalSellerJson(x.value) != CanonicalSellerJson(y.value) &&
               env.keccak(CanonicalSellerJson(x.value)) == env.keccak(CanonicalSellerJson(y.value)))
  {
    var x := ReadResult(b, d, p, jobId, buyer, urlA, hashA, job, bodyA, safe, env);
    var y := ReadResult(b, d, q, jobId, buyer, urlB, hashB, job, bodyB, safe, env);
    if x.Success? && y.Success? {
      AcceptedResult(b, d, p, jobId, buyer, urlA, hashA, job, bodyA, safe, env);
      AcceptedResult(b, d, q, jobId, buyer, urlB, hashB, job, bodyB, safe, env);
      CanonicalTextIffSame(x.value, y.value, env.num);
    }
  }

  /** An accepted result is well behaved and hashes to the digest on the chain. */
  lemma AcceptedResult(b: Binding, d: Deployment, q: Quote, jobId: Str, buyer: Str, url: Str, submission: Option<Str>,
                       job: JobRead, body: Json, safe: Json -> bool, env: Env)
    requires ValidBinding(b) && Sound(env) && Sane(Members(Some(body)), env.num)
    requires ReadResult(b, d, q, jobId, buyer, url, submission, job, body, safe, env).Success?
    ensures var x := ReadResult(b, d, q, jobId, buyer, url, submission, job, body, safe, env).value;
            Unambiguous(x) && Printable(x, env.num) && Some(env.keccak(CanonicalSellerJson(x))) == job.deliverable
  {
    ResultSteps(b, d, q, jobId, buyer, url, submission, job, body, safe, env);
    JobNeedsQuote(b, q, jobId, buyer, job, RESULT_STATES, env);
    SupportedChain(b, q, env);
    AcceptedBody(d, q.chainId, jobId, url, submission, job.deliverable.value, body, safe, env);
  }

  lemma AcceptedBody(d: Deployment, chainId: nat, jobId: Str, url: Str, submission: Option<Str>, digest: Str,
                     body: Json, safe: Json -> bool, env: Env)
    requires Sound(env) && chainId <= MAX_SAFE && Sane(Members(Some(body)), env.num)
    ensures var x := ReadBody(d, chainId, jobId, url, submission, digest, body, safe, env);
            x.Success? ==>
              Unambiguous(x.value) && Printable(x.value, env.num) &&
              env.keccak(CanonicalSellerJson(x.value)) == digest
  {
    var document := Document(Members(Some(body)), chainId, d, url, submission);
    if document.Success? {
      ManifestChecked(document.value, jobId, chainId, d, digest, safe, env);
      DocumentSane(Members(Some(body)), chainId, d, url, submission, env);
    }
  }

  lemma ManifestChecked(fields: seq<Field>, jobId: Str, chainId: nat, d: Deployment, digest: Str, safe: Json -> bool,
                        env: Env)
    ensures var x := CheckManifest(fields, jobId, chainId, d, digest, safe, env);
            x.Success? ==> x.value == Object(fields) && env.keccak(CanonicalSellerJson(x.value)) == digest
  {
  }

  lemma SupportedChain(b: Binding, q: Quote, env: Env)
    requires ValidBinding(b)
    ensures AssertQuote(b, q, env) ==> q.chainId <= MAX_SAFE
  {
  }

  /** What `readResult` has established when it returns. */
  lemma ResultSteps(b: Binding, d: Deployment, q: Quote, jobId: Str, buyer: Str, url: Str, submission: Option<Str>,
                    job: JobRead, body: Json, safe: Json -> bool, env: Env)
    requires ValidBinding(b)
    ensures var x := ReadResult(b, d, q, jobId, buyer, url, submission, job, body, safe, env);
            x.Success? ==>
              AssertJob(b, q, jobId, buyer, job, RESULT_STATES, env).None? && job.deliverable.Some? &&
              x == ReadBody(d, q.chainId, jobId, url, submission, job.deliverable.value, body, safe, env)
  {
  }

  /** The answer form that moves the deployment out of the manifest. */
  function Project(manifest: seq<Field>, url: Str, transaction: Str): seq<Field> {
    Without(manifest, CHAIN_ID, CONTRACTS) + [Field(DELIVERABLE_URL, String(url)), Field(TX_HASH, String(transaction))]
  }

  lemma ManifestKeys(manifest: seq<Field>)
    requires IsManifest(manifest)
    ensures forall f :: f in FieldSet(manifest) ==> f.key != SUCCESS && f.key != DELIVERABLE_URL && f.key != TX_HASH
    ensures Lookup(manifest, SUCCESS).None?
  {
    WireKeysDiffer();
    forall f | f in FieldSet(manifest) ensures f.key != SUCCESS && f.key != DELIVERABLE_URL && f.key != TX_HASH {
      assert f.key in KeySet(manifest);
    }
    LookupNone(manifest, SUCCESS);
  }

  /** The two members that are put in differ from each other and from the ones taken out. */
  lemma PointerKeys(url: Str, transaction: Str)
    ensures var added := [Field(DELIVERABLE_URL, String(url)), Field(TX_HASH, String(transaction))];
            DistinctKeys(added) && FieldSet(added) == {added[0], added[1]}
    ensures DELIVERABLE_URL !in {CHAIN_ID, CONTRACTS, SUCCESS} && TX_HASH !in {CHAIN_ID, CONTRACTS, SUCCESS}
  {
    WireKeysDiffer();
    TwoFields(Field(DELIVERABLE_URL, String(url)), Field(TX_HASH, String(transaction)));
  }

  lemma KeptKeys(manifest: seq<Field>)
    requires IsManifest(manifest) && DistinctKeys(manifest)
    ensures var rest := Without(manifest, CHAIN_ID, CONTRACTS);
            DistinctKeys(rest) &&
            forall f :: f in FieldSet(rest) ==> f.key !in {CHAIN_ID, CONTRACTS, SUCCESS, DELIVERABLE_URL, TX_HASH}
  {
    ManifestKeys(manifest);
    Proofs.WithoutSet(manifest, CHAIN_ID, CONTRACTS);
    WithoutDistinct(manifest, CHAIN_ID, CONTRACTS);
  }

  lemma ProjectedKeys(manifest: seq<Field>, url: Str, transaction: Str)
    requires IsManifest(manifest) && DistinctKeys(manifest)
    ensures var fields := Project(manifest, url, transaction);
            DistinctKeys(fields) &&
            forall f :: f in FieldSet(fields) ==> f.key != CHAIN_ID && f.key != CONTRACTS && f.key != SUCCESS
  {
    var rest := Without(manifest, CHAIN_ID, CONTRACTS);
    var added := [Field(DELIVERABLE_URL, String(url)), Field(TX_HASH, String(transaction))];
    PointerKeys(url, transaction);
    KeptKeys(manifest);
    KeptApart(manifest, url, transaction);
    AppendFields(rest, added);
    ProjectedDistinct(rest, added);
  }

  lemma ProjectionDetected(manifest: seq<Field>, url: Str, transaction: Str)
    requires IsManifest(manifest) && DistinctKeys(manifest) && IsHash(transaction)
    ensures var fields := Project(manifest, url, transaction);
            IsProjected(fields, url) && Lookup(fields, SUCCESS).None? &&
            Lookup(fields, TX_HASH) == Some(String(transaction)) && DistinctKeys(fields)
  {
    var fields := Project(manifest, url, transaction);
    var rest := Without(manifest, CHAIN_ID, CONTRACTS);
    var added := [Field(DELIVERABLE_URL, String(url)), Field(TX_HASH, String(transaction))];
    ProjectedKeys(manifest, url, transaction);
    LookupNone(fields, CHAIN_ID);
    LookupNone(fields, CONTRACTS);
    LookupNone(fields, SUCCESS);
    AppendFields(rest, added);
    assert added[0] in FieldSet(added) && added[1] in FieldSet(added);
    Proofs.LookupMember(fields, added[0]);
    Proofs.LookupMember(fields, added[1]);
  }

  lemma ProjectedDistinct(rest: seq<Field>, added: seq<Field>)
    requires DistinctKeys(rest) && DistinctKeys(added)
    requires forall f, g :: f in FieldSet(rest) && g in FieldSet(added) ==> f.key != g.key
    ensures DistinctKeys(rest + added)
  {
    var all := rest + added;
    forall i, j | 0 <= i < j < |all| ensures all[i].key != all[j].key {
      if i < |rest| <= j {
        assert rest[i] in FieldSet(rest) && added[j - |rest|] in FieldSet(added);
      }
    }
  }

  /** Objects with the same fields are equal up to key order. */
  lemma SameFields(fs: seq<Field>, gs: seq<Field>)
    requires Unambiguous(Object(gs)) && FieldSet(fs) == FieldSet(gs)
    ensures Same(Object(fs), Object(gs))
  {
    forall k ensures k in KeySet(fs) <==> k in KeySet(gs) {
      if k in KeySet(fs) {
        var f :| f in fs && f.key == k;
        assert f in FieldSet(gs);
      }
      if k in KeySet(gs) {
        var g :| g in gs && g.key == k;
        assert g in FieldSet(fs);
      }
    }
    forall i, j | 0 <= i < |fs| && 0 <= j < |gs| && fs[i].key == gs[j].key ensures Same(fs[i].value, gs[j].value) {
      assert fs[i] in FieldSet(gs);
      var k :| 0 <= k < |gs| && gs[k] == fs[i];
      assert k == j;
      CanonicalIffSame(gs[j].value, gs[j].value);
    }
  }

  lemma RestoredFields(manifest: seq<Field>, chainId: nat, d: Deployment, url: Str, transaction: Str)
    requires IsManifest(manifest) && DistinctKeys(manifest)
    requires Lookup(manifest, CHAIN_ID) == Some(Num(chainId)) && Lookup(manifest, CONTRACTS) == Some(ContractsJson(d))
    ensures FieldSet(Without(Project(manifest, url, transaction), TX_HASH, DELIVERABLE_URL) +
                     [Field(CHAIN_ID, Num(chainId)), Field(CONTRACTS, ContractsJson(d))])
         == FieldSet(manifest)
  {
    var rest := Without(manifest, CHAIN_ID, CONTRACTS);
    var moved := [Field(DELIVERABLE_URL, String(url)), Field(TX_HASH, String(transaction))];
    var added := [Field(CHAIN_ID, Num(chainId)), Field(CONTRACTS, ContractsJson(d))];
    var restored := Without(Project(manifest, url, transaction), TX_HASH, DELIVERABLE_URL);
    ManifestKeys(manifest);
    Proofs.WithoutSet(manifest, CHAIN_ID, CONTRACTS);
    AppendFields(rest, moved);
    Proofs.WithoutSet(rest + moved, TX_HASH, DELIVERABLE_URL);
    AppendFields(restored, added);
    TwoFields(moved[0], moved[1]);
    TwoFields(added[0], added[1]);
    DeploymentFields(manifest, chainId, d);
    SetsRestored(FieldSet(manifest), FieldSet(rest), moved[0], moved[1], added[0], added[1], FieldSet(restored));
  }

  lemma TwoFields(f: Field, g: Field)
    ensures FieldSet([f, g]) == {f, g}
  {
  }

  /** The same, on the sets of members alone. */
  lemma SetsRestored(all: set<Field>, rest: set<Field>, url: Field, hash: Field, id: Field, contracts: Field,
                     restored: set<Field>)
    requires rest == set f | f in all && f.key != id.key && f.key != contracts.key
    requires id in all && contracts in all
    requires forall f :: f in all && (f.key == id.key || f.key == contracts.key) ==> f == id || f == contracts
    requires forall f :: f in all ==> f.key != url.key && f.key != hash.key
    requires restored == set f | f in rest + {url, hash} && f.key != hash.key && f.key != url.key
    ensures restored + {id, contracts} == all
  {
    assert restored == rest;
  }

  lemma {:induction false} LookupIn(fields: seq<Field>, key: Str)
    ensures Lookup(fields, key).Some? ==> Field(key, Lookup(fields, key).value) in FieldSet(fields)
    decreases |fields|
  {
    if fields != [] {
      LookupIn(fields[1..], key);
      assert fields == [fields[0]] + fields[1..];
      FieldSetCons(fields[0], fields[1..]);
    }
  }

  lemma DeploymentFields(manifest: seq<Field>, chainId: nat, d: Deployment)
    requires DistinctKeys(manifest)
    requires Lookup(manifest, CHAIN_ID) == Some(Num(chainId)) && Lookup(manifest, CONTRACTS) == Some(ContractsJson(d))
    ensures Field(CHAIN_ID, Num(chainId)) in FieldSet(manifest)
    ensures Field(CONTRACTS, ContractsJson(d)) in FieldSet(manifest)
    ensures forall f :: f in FieldSet(manifest) && (f.key == CHAIN_ID || f.key == CONTRACTS) ==>
              f == Field(CHAIN_ID, Num(chainId)) || f == Field(CONTRACTS, ContractsJson(d))
  {
    LookupIn(manifest, CHAIN_ID);
    LookupIn(manifest, CONTRACTS);
    forall f | f in FieldSet(manifest) && (f.key == CHAIN_ID || f.key == CONTRACTS)
      ensures f == Field(CHAIN_ID, Num(chainId)) || f == Field(CONTRACTS, ContractsJson(d))
    {
      Proofs.LookupMember(manifest, f);
    }
  }

  /**
   Projection is undone exactly: the answer that moved the deployment fields out stands for the
   committed manifest again, up to key order, and so for the same text and the same digest.
   */
  lemma {:induction false} ProjectionRestored(
    manifest: seq<Field>, chainId: nat, d: Deployment, url: Str, transaction: Str, submission: Option<Str>, env: Env)
    requires IsManifest(manifest) && Sane(manifest, env.num) && Sound(env) && chainId <= MAX_SAFE
    requires Lookup(manifest, CHAIN_ID) == Some(Num(chainId)) && Lookup(manifest, CONTRACTS) == Some(ContractsJson(d))
    requires IsHash(transaction) && (submission.Some? ==> SameText(transaction, submission.value))
    ensures var document := Document(Project(manifest, url, transaction), chainId, d, url, submission);
            document.Success? && Same(Object(document.value), Object(manifest)) &&
            CanonicalSellerJson(Object(document.value)) == CanonicalSellerJson(Object(manifest))
  {
    var fields := Project(manifest, url, transaction);
    SaneMembers(manifest, env.num);
    ProjectionDetected(manifest, url, transaction);
    RestoredFields(manifest, chainId, d, url, transaction);
    var document := Document(fields, chainId, d, url, submission).value;
    SameFields(document, manifest);
    ProjectSane(manifest, url, transaction, env);
    RestoredSane(fields, chainId, d, env);
    CanonicalTextIffSame(Object(document), Object(manifest), env.num);
  }

  lemma ProjectSane(manifest: seq<Field>, url: Str, transaction: Str, env: Env)
    requires IsManifest(manifest) && Sane(manifest, env.num) && IsHash(transaction)
    ensures Sane(Project(manifest, url, transaction), env.num)
  {
    var rest := Without(manifest, CHAIN_ID, CONTRACTS);
    var added := [Field(DELIVERABLE_URL, String(url)), Field(TX_HASH, String(transaction))];
    WithoutSane(manifest, CHAIN_ID, CONTRACTS, env.num);
    PointerSane(url, transaction, env.num);
    KeptApart(manifest, url, transaction);
    AppendSane(rest, added, env.num);
  }

  lemma PointerSane(url: Str, transaction: Str, num: Str -> Str)
    ensures Sane([Field(DELIVERABLE_URL, String(url)), Field(TX_HASH, String(transaction))], num)
  {
    PointerKeys(url, transaction);
  }

  lemma KeptApart(manifest: seq<Field>, url: Str, transaction: Str)
    requires IsManifest(manifest) && DistinctKeys(manifest)
    ensures var rest := Without(manifest, CHAIN_ID, CONTRACTS);
            var added := [Field(DELIVERABLE_URL, String(url)), Field(TX_HASH, String(transaction))];
            forall f, g :: f in FieldSet(rest) && g in FieldSet(added) ==> f.key != g.key
  {
    PointerKeys(url, transaction);
    KeptKeys(manifest);
  }
}
