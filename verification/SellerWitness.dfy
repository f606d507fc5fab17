/**
 One offer from negotiation to result: a binding, a task, a seller's reply, a chain read and an
 answer that every check accepts, so that the theorems about accepted offers are about something.
 */
module SellerWitness {
  import opened Wrappers
  import opened JsonValues
  import opened JsonText
  import opened SellerQuote
  import R = SellerResult
  import Proofs = SellerQuoteProofs
  import Lifecycle

  /// How long a canonical text is

  lemma {:induction false} InsertLexLength(f: Field, fs: seq<Field>)
    ensures |InsertLex(f, fs)| == |fs| + 1
  {
    if fs != [] { InsertLexLength(f, fs[1..]); }
  }

  lemma {:induction false} SortLexLength(fs: seq<Field>)
    ensures |SortLex(fs)| == |fs|
  {
    if fs != [] {
      SortLexLength(fs[1..]);
      InsertLexLength(fs[0], SortLex(fs[1..]));
    }
  }

  lemma {:induction false} InsertNumericLength(f: Field, fs: seq<Field>)
    requires IsIndex(f.key) && forall i :: 0 <= i < |fs| ==> IsIndex(fs[i].key)
    ensures |InsertNumeric(f, fs)| == |fs| + 1
  {
    if fs != [] { InsertNumericLength(f, fs[1..]); }
  }

  lemma {:induction false} SortNumericLength(fs: seq<Field>)
    requires forall i :: 0 <= i < |fs| ==> IsIndex(fs[i].key)
    ensures |SortNumeric(fs)| == |fs|
  {
    if fs != [] {
      SortNumericLength(fs[1..]);
      InsertNumericLength(fs[0], SortNumeric(fs[1..]));
    }
  }

  lemma {:induction false} SplitLength(fs: seq<Field>)
    ensures |IndexFields(fs)| + |NamedFields(fs)| == |fs|
  {
    if fs != [] { SplitLength(fs[1..]); }
  }

  /** Arranging the members of an object loses and adds none. */
  lemma ArrangedLength(fs: seq<Field>)
    ensures |PropertyOrder(SortLex(fs))| == |fs|
  {
    SortLexLength(fs);
    SplitLength(SortLex(fs));
    SortNumericLength(IndexFields(SortLex(fs)));
  }

  lemma OneMore(n: nat, k: nat)
    ensures (n + 1) * k == k + n * k
  {
  }

  lemma {:induction false} FieldsLength(fs: seq<Field>, m: nat)
    requires forall i :: 0 <= i < |fs| ==> |PrintField(fs[i], PerString)| <= m
    ensures |PrintFields(fs, PerString)| <= |fs| * (m + 1)
  {
    if |fs| > 1 {
      FieldsLength(fs[1..], m);
      OneMore(|fs| - 1, m + 1);
    }
  }

  /** The canonical text of an object is no longer than its number of members times the longest one. */
  lemma ObjectLength(fs: seq<Field>, m: nat)
    requires DistinctKeys(fs)
    requires forall i :: 0 <= i < |fs| ==> |PrintField(Field(fs[i].key, Canonical(fs[i].value)), PerString)| <= m
    ensures |Print(Canonical(Object(fs)), PerString)| <= |fs| * (m + 1) + 2
  {
    var cf := CanonicalFields(fs);
    var ps := PropertyOrder(SortLex(cf));
    PropertyOrderSorts(cf);
    ArrangedLength(cf);
    forall k | 0 <= k < |ps| ensures |PrintField(ps[k], PerString)| <= m {
      assert ps[k] in FieldSet(cf);
      var i :| 0 <= i < |cf| && cf[i] == ps[k];
    }
    FieldsLength(ps, m);
  }

  /** Printable ASCII without quotation marks and backslashes: such a text is printed as it is. */
  predicate Plain(s: Str) {
    forall i :: 0 <= i < |s| ==> 0x20 <= s[i] < 0x7f && s[i] != QUOTE && s[i] != BACKSLASH
  }

  lemma {:induction false} PlainLength(s: Str)
    requires Plain(s)
    ensures |AsciiBody(s)| == |s|
  {
    if s != [] { PlainLength(s[1..]); }
  }

  lemma TextFieldLength(key: Str, s: Str)
    requires Plain(key) && Plain(s)
    ensures |PrintField(Field(key, String(s)), PerString)| == |key| + |s| + 5
  {
    PlainLength(key);
    PlainLength(s);
  }

  lemma ShortDecimal(n: nat)
    requires n < 100
    ensures |Decimal(n)| <= 2
  {
  }

  lemma NumFieldLength(key: Str, n: nat)
    requires Plain(key) && n < 100
    ensures |PrintField(Field(key, Num(n)), PerString)| <= |key| + 5
  {
    PlainLength(key);
    ShortDecimal(n);
  }

  lemma {:induction false} SanitizePlain(s: Str)
    requires Plain(s)
    ensures Plain(Sanitize(s)) && |Sanitize(s)| == |s|
  {
    if s != [] {
      SanitizePlain(s[1..]);
      assert |SanitizeUnit(s[0])| == 1;
    }
  }

  /// The parties

  function Repeat(c: CodeUnit, n: nat): (r: Str)
    ensures |r| == n && forall i :: 0 <= i < n ==> r[i] == c
  {
    seq(n, _ => c)
  }

  function Hex(digits: nat): (r: Str)
    ensures IsHexText(r, digits) && Plain(r) && forall i :: 2 <= i < |r| ==> r[i] == 0x31
  {
    [0x30, 0x78] + Repeat(0x31, digits)
  }

  /** An environment in which every text has one hash and one signer. */
  function Simple(): Env {
    Env(_ => Hex(64), _ => Repeat(0x31, 64), (_, _) => Some(Hex(40)), a => a, t => t, _ => true)
  }

  lemma SimpleIsSound()
    ensures Sound(Simple())
  {
  }

  function Seller(): Binding {
    Binding(Identity([0x61], 97, Hex(40), [0x31]), Hex(40), [], [], Hex(40), Hex(40), [0x31])
  }

  lemma SellerIsValid()
    ensures ValidBinding(Seller()) && Trim(Seller().identity.namespace) == Seller().identity.namespace
    ensures ParseIdentity(Seller().identity) == Some(Seller().identity)
    ensures PriceAllowed([0x31], 97, Seller())
  {
    assert Hex(40)[2] != 0x30;
    OneIsOne();
  }

  lemma OneIsOne()
    ensures IsPositiveDecimal([0x31]) && DecimalValue([0x31]) == 1
  {
    assert [0x31][..0] == [];
  }

  function Work(): Task {
    Task([0x74], [0x64], [0x71])
  }

  function Answer(): Reply {
    var terms := Terms([0x64], [0x71], None, None, None);
    Reply([0x74], terms, terms, [0x31], Hex(40), 60, 35, 5, Hex(64), Hex(64), Hex(64), Hex(130), 97, Hex(40), None)
  }

  lemma AnswerIsValid()
    ensures ValidReply(Answer())
  {
    assert Hex(40)[2] != 0x30;
  }

  /// The offer

  /** The member is printed in at most 160 code units. */
  predicate Short(f: Field) {
    |PrintField(Field(f.key, Canonical(f.value)), PerString)| <= 160
  }

  predicate AllShort(fs: seq<Field>) {
    forall i :: 0 <= i < |fs| ==> Short(fs[i])
  }

  predicate ShortText(s: Str) {
    Plain(s) && |s| <= 132
  }

  lemma TextShort(key: Str, s: Str)
    requires Plain(key) && |key| <= 18 && ShortText(s)
    ensures Short(Field(key, String(s)))
  {
    TextFieldLength(key, s);
  }

  lemma NumShort(key: Str, n: nat)
    requires Plain(key) && |key| <= 18 && n < 100
    ensures Short(Field(key, Num(n)))
  {
    NumFieldLength(key, n);
  }

  lemma JoinShort(xs: seq<Field>, ys: seq<Field>)
    requires AllShort(xs) && AllShort(ys)
    ensures AllShort(xs + ys)
  {
  }

  /** A reply whose signed parts are short and plain. */
  predicate Brief(r: Reply, task: Str, env: Env) {
    && ShortText(task) && ShortText(r.price) && ShortText(r.currency) && ShortText(env.checksum(r.verifyingContract))
    && ShortText(r.negotiationHash) && ShortText(r.providerSig)
    && r.negotiatedAt < 100 && r.expiresAt < 100 && r.chainId < 100
    && Plain(r.responseTerms.deliverables) && |r.responseTerms.deliverables| <= 10
    && Plain(r.responseTerms.qualityStandards) && |r.responseTerms.qualityStandards| <= 10
    && r.responseTerms.successCriteria.None?
  }

  lemma NumberKeysPlain()
    ensures Plain(VERSION) && Plain(NEGOTIATED_AT) && Plain(QUOTE_EXPIRES_AT) && Plain(CHAIN_ID)
  {
  }

  lemma TextKeysPlain()
    ensures Plain(TASK) && Plain(PRICE) && Plain(CURRENCY) && Plain(VERIFYING_CONTRACT)
  {
  }

  lemma SignatureKeysPlain()
    ensures Plain(NEGOTIATION_HASH) && Plain(PROVIDER_SIG)
  {
  }

  lemma TermsKeysPlain()
    ensures Plain(TERMS) && Plain(DELIVERABLES) && Plain(QUALITY_STANDARDS)
  {
  }

  lemma TermsShort(t: Terms)
    requires Plain(t.deliverables) && |t.deliverables| <= 10 && t.successCriteria.None?
    requires Plain(t.qualityStandards) && |t.qualityStandards| <= 10
    ensures Short(Field(TERMS, Object(SignedTerms(t))))
  {
    TermsLength(t);
    TermsKeysPlain();
    Proofs.KeysDiffer();
    PlainLength(TERMS);
  }

  lemma TermsLength(t: Terms)
    requires Plain(t.deliverables) && |t.deliverables| <= 10 && t.successCriteria.None?
    requires Plain(t.qualityStandards) && |t.qualityStandards| <= 10
    ensures |Print(Canonical(Object(SignedTerms(t))), PerString)| <= 90
  {
    var fs := SignedTerms(t);
    Proofs.SignedTermsUnambiguous(t);
    Proofs.KeysDiffer();
    TermsKeysPlain();
    SanitizePlain(t.deliverables);
    SanitizePlain(t.qualityStandards);
    TextFieldLength(DELIVERABLES, Sanitize(t.deliverables));
    TextFieldLength(QUALITY_STANDARDS, Sanitize(t.qualityStandards));
    assert fs == [fs[0], fs[1]];
    ObjectLength(fs, 40);
  }

  lemma NumbersShort(r: Reply, task: Str, env: Env)
    requires Brief(r, task, env)
    ensures Short(Field(VERSION, Num(1))) && Short(Field(NEGOTIATED_AT, Num(r.negotiatedAt)))
    ensures Short(Field(QUOTE_EXPIRES_AT, Num(r.expiresAt))) && Short(Field(CHAIN_ID, Num(r.chainId)))
  {
    Proofs.KeysDiffer();
    NumberKeysPlain();
    NumShort(VERSION, 1);
    NumShort(NEGOTIATED_AT, r.negotiatedAt);
    NumShort(QUOTE_EXPIRES_AT, r.expiresAt);
    NumShort(CHAIN_ID, r.chainId);
  }

  lemma TextsShort(r: Reply, task: Str, env: Env)
    requires Brief(r, task, env)
    ensures Short(Field(TASK, String(Sanitize(task)))) && Short(Field(PRICE, String(r.price)))
    ensures Short(Field(CURRENCY, String(r.currency)))
    ensures Short(Field(VERIFYING_CONTRACT, String(env.checksum(r.verifyingContract))))
  {
    Proofs.KeysDiffer();
    TextKeysPlain();
    SanitizePlain(task);
    TextShort(TASK, Sanitize(task));
    TextShort(PRICE, r.price);
    TextShort(CURRENCY, r.currency);
    TextShort(VERIFYING_CONTRACT, env.checksum(r.verifyingContract));
  }

  lemma SignatureShort(r: Reply, task: Str, env: Env)
    requires Brief(r, task, env)
    ensures AllShort(SignatureFields(r))
  {
    Proofs.KeysDiffer();
    SignatureKeysPlain();
    TextShort(NEGOTIATION_HASH, r.negotiationHash);
    TextShort(PROVIDER_SIG, r.providerSig);
  }

  lemma ContentShort(r: Reply, task: Str, env: Env)
    requires Brief(r, task, env)
    ensures AllShort(ContentFields(r, task, env))
  {
    NumbersShort(r, task, env);
    TextsShort(r, task, env);
    TermsShort(r.responseTerms);
    var fs := ContentFields(r, task, env);
    NineShort(fs[0], fs[1], fs[2], fs[3], fs[4], fs[5], fs[6], fs[7], fs[8]);
    assert fs == [fs[0], fs[1], fs[2], fs[3], fs[4], fs[5], fs[6], fs[7], fs[8]];
  }

  lemma NineShort(a: Field, b: Field, c: Field, d: Field, e: Field, f: Field, g: Field, h: Field, i: Field)
    requires Short(a) && Short(b) && Short(c) && Short(d) && Short(e) && Short(f) && Short(g) && Short(h) && Short(i)
    ensures AllShort([a, b, c, d, e, f, g, h, i])
  {
  }

  /** Such a reply has a description that can be stored. */
  lemma BriefFits(r: Reply, task: Str, env: Env)
    requires Brief(r, task, env) && ValidReply(r) && Sound(env)
    ensures 1 <= |SignedDescription(r, task, env)| <= 4096
  {
    var fs := ContentFields(r, task, env) + SignatureFields(r);
    Proofs.SignedObjectUnambiguous(r, task, env);
    Proofs.SignedObjectPrintable(r, task, env);
    CanonicalPrintable(Object(fs), env.num);
    EscapePassPerString(Canonical(Object(fs)), env.num);
    ContentShort(r, task, env);
    SignatureShort(r, task, env);
    JoinShort(ContentFields(r, task, env), SignatureFields(r));
    ObjectLength(fs, 160);
  }

  lemma AnswerIsBrief()
    ensures Brief(Answer(), Work().task, Simple())
  {
  }

  lemma DescriptionFits()
    ensures 1 <= |SignedDescription(Answer(), Work().task, Simple())| <= 4096
  {
    SimpleIsSound();
    AnswerIsValid();
    AnswerIsBrief();
    BriefFits(Answer(), Work().task, Simple());
  }

  const READ: IdentityRead := IdentityRead(Hex(40), [0x31])

  lemma DraftParses()
    ensures var q := DraftQuote(Seller(), Work(), Answer(), Hex(40), READ, Simple());
            ParseQuote(q, Simple()) == Some(q)
  {
    SellerIsValid();
    DescriptionFits();
    OneIsOne();
    assert Hex(40)[2] != 0x30;
  }

  lemma NothingRefused()
    ensures ValidBinding(Seller()) && Refuse(Seller(), Work(), Answer(), 5, Simple()).None?
  {
    SellerIsValid();
    AnswerIsValid();
  }

  lemma Negotiated()
    ensures ValidBinding(Seller())
    ensures Negotiate(Seller(), Work(), Answer(), 5, READ, Simple())
            == Success(DraftQuote(Seller(), Work(), Answer(), Hex(40), READ, Simple()))
  {
    NothingRefused();
    DescriptionFits();
    DraftParses();
    var q := DraftQuote(Seller(), Work(), Answer(), Hex(40), READ, Simple());
    Succeeds(Seller(), Work(), Answer(), 5, READ, Simple(), Hex(40), q);
  }

  lemma Succeeds(b: Binding, task: Task, r: Reply, now: int, id: IdentityRead, env: Env, signer: Str, q: Quote)
    requires ValidBinding(b) && Refuse(b, task, r, now, env).None?
    requires env.recover(r.negotiationHash, r.providerSig) == Some(signer)
    requires SameText(id.agentWallet, b.providerAddress) && SameText(signer, id.agentWallet)
    requires |SignedDescription(r, task.task, env)| <= 4096
    requires ParseQuote(DraftQuote(b, task, r, signer, id, env), env) == Some(q)
    ensures Negotiate(b, task, r, now, id, env) == Success(q)
  {
  }

  /**
   The seller's reply is negotiated and the stored offer passes; under the binding with a space
   before its namespace the same reply is negotiated and the stored offer is refused.
   */
  lemma OfferExists() returns (q: Quote)
    ensures ValidBinding(Seller()) && Sound(Simple())
    ensures Negotiate(Seller(), Work(), Answer(), 5, READ, Simple()) == Success(q) && AssertQuote(Seller(), q, Simple())
    ensures ValidBinding(Proofs.Spaced(Seller()))
    ensures var spaced := Negotiate(Proofs.Spaced(Seller()), Work(), Answer(), 5, READ, Simple());
            spaced.Success? && !AssertQuote(Proofs.Spaced(Seller()), spaced.value, Simple())
  {
    SimpleIsSound();
    SellerIsValid();
    Negotiated();
    q := DraftQuote(Seller(), Work(), Answer(), Hex(40), READ, Simple());
    Proofs.NegotiatedQuoteAccepted(Seller(), Work(), Answer(), 5, READ, Simple());
    Proofs.SpacedNamespaceRefused(Seller(), Work(), Answer(), 5, READ, Simple());
  }

  /// The job and the result

  function OnChain(q: Quote): R.JobRead {
    R.JobRead([0x31], q.chainId, q.commerceContract, Hex(40), q.providerAddress, q.paymentToken, q.priceAtomic,
              q.signedDescription, Lifecycle.Submitted, Some(Hex(64)))
  }

  function Contracts(): R.Deployment {
    R.Deployment(Hex(40), Hex(40), Hex(40))
  }

  function Manifest(): seq<Field> {
    [Field(VERSION, Num(1)), Field(R.JOB_ID, Number([0x31])), Field(CHAIN_ID, Num(97)),
     Field(R.CONTRACTS, R.ContractsJson(Contracts())),
     Field(R.RESPONSE, Object([Field(R.CONTENT, String([0x78]))])), Field(R.METADATA, Object([]))]
  }

  lemma ManifestLookups()
    ensures Lookup(Manifest(), VERSION) == Some(Num(1)) && Lookup(Manifest(), R.JOB_ID) == Some(Number([0x31]))
    ensures Lookup(Manifest(), CHAIN_ID) == Some(Num(97))
    ensures Lookup(Manifest(), R.CONTRACTS) == Some(R.ContractsJson(Contracts()))
    ensures Lookup(Manifest(), R.RESPONSE) == Some(Object([Field(R.CONTENT, String([0x78]))]))
    ensures Lookup(Manifest(), R.METADATA) == Some(Object([])) && Lookup(Manifest(), R.SUCCESS).None?
    ensures DistinctKeys(Manifest())
  {
    R.WireKeysDiffer();
    var m := Manifest();
    assert DistinctKeys(m);
    forall i | 0 <= i < |m| ensures Lookup(m, m[i].key) == Some(m[i].value) {
      assert m[i] in FieldSet(m);
      Proofs.LookupMember(m, m[i]);
    }
    assert m[0].key == VERSION && m[1].key == R.JOB_ID && m[2].key == CHAIN_ID;
    assert m[3].key == R.CONTRACTS && m[4].key == R.RESPONSE && m[5].key == R.METADATA;
    R.LookupNone(m, R.SUCCESS);
  }

  lemma ContractLookups()
    ensures var fs := R.ContractsJson(Contracts()).fields;
            Lookup(fs, R.COMMERCE) == Lookup(fs, R.ROUTER) == Lookup(fs, R.POLICY) == Some(String(Hex(40)))
    ensures KeySet(R.ContractsJson(Contracts()).fields) == {R.COMMERCE, R.ROUTER, R.POLICY}
  {
    R.WireKeysDiffer();
    var fs := R.ContractsJson(Contracts()).fields;
    forall i | 0 <= i < |fs| ensures Lookup(fs, fs[i].key) == Some(fs[i].value) {
      assert fs[i] in FieldSet(fs);
      Proofs.LookupMember(fs, fs[i]);
    }
    assert fs[0].key == R.COMMERCE && fs[1].key == R.ROUTER && fs[2].key == R.POLICY;
  }

  lemma ManifestKeys()
    ensures KeySet(Manifest()) == {VERSION, R.JOB_ID, CHAIN_ID, R.CONTRACTS, R.RESPONSE, R.METADATA}
  {
    var m := Manifest();
    assert KeySet(m) == {m[0].key, m[1].key, m[2].key, m[3].key, m[4].key, m[5].key};
  }

  lemma ResponseLookups()
    ensures var response := [Field(R.CONTENT, String([0x78]))];
            KeySet(response) == {R.CONTENT} && R.IsTextMember(Lookup(response, R.CONTENT), 48000) &&
            Lookup(response, R.CONTENT_TYPE).None?
  {
    var response := [Field(R.CONTENT, String([0x78]))];
    assert KeySet(response) == {response[0].key};
    assert |R.CONTENT| == 7 && |R.CONTENT_TYPE| == 12;
  }

  lemma ContractAddresses()
    ensures var fs := R.ContractsJson(Contracts()).fields;
            R.IsAddressMember(fs, R.COMMERCE) && R.IsAddressMember(fs, R.ROUTER) && R.IsAddressMember(fs, R.POLICY)
  {
    ContractLookups();
    assert Hex(40)[2] != 0x30;
  }

  lemma ManifestIsManifest()
    ensures R.IsManifest(Manifest())
  {
    ManifestLookups();
    ManifestKeys();
    ContractLookups();
    ContractAddresses();
    ResponseLookups();
    OneIsOne();
  }

  lemma ManifestMatchesJob()
    ensures R.MatchesJob(Manifest(), [0x31], 97, Contracts())
  {
    ManifestLookups();
    ContractLookups();
  }

  /** The seller's manifest is accepted as the result of the job made from that offer. */
  lemma ResultExists() returns (q: Quote)
    ensures ValidBinding(Seller()) && Sound(Simple()) && R.Sane(Manifest(), Simple().num)
    ensures Negotiate(Seller(), Work(), Answer(), 5, READ, Simple()) == Success(q)
    ensures R.ReadResult(Seller(), Contracts(), q, [0x31], Hex(40), [], None, OnChain(q), Object(Manifest()),
                         _ => true, Simple()) == Success(Object(Manifest()))
  {
    q := OfferExists();
    JobAccepted(q);
    ManifestSane();
    BodyAccepted();
  }

  lemma JobAccepted(q: Quote)
    requires ValidBinding(Seller()) && Sound(Simple())
    requires Negotiate(Seller(), Work(), Answer(), 5, READ, Simple()) == Success(q)
    ensures q.chainId == 97
    ensures R.AssertJob(Seller(), q, [0x31], Hex(40), OnChain(q), R.RESULT_STATES, Simple()).None?
  {
    SellerIsValid();
    OneIsOne();
    Proofs.NegotiatedQuoteAccepted(Seller(), Work(), Answer(), 5, READ, Simple());
    Negotiated();
    assert Hex(40)[2] != 0x30;
  }

  lemma ManifestSane()
    ensures R.Sane(Manifest(), Simple().num)
  {
    ManifestLookups();
    var m := Manifest();
    forall i | 0 <= i < |m| ensures Unambiguous(m[i].value) && Printable(m[i].value, Simple().num) {
      ValueSane(i);
    }
    MembersSane(m, Simple().num);
  }

  lemma ValueSane(i: nat)
    requires i < 6
    ensures Unambiguous(Manifest()[i].value) && Printable(Manifest()[i].value, Simple().num)
  {
    SimpleIsSound();
    if i == 0 {
      Proofs.NumPrintable(1, Simple());
    } else if i == 1 {
      OneIsText();
    } else if i == 2 {
      Proofs.NumPrintable(97, Simple());
    } else if i == 3 {
      ContractsPlain(Simple().num);
    } else if i == 4 {
      ResponsePlain(Simple().num);
    }
  }

  lemma ContractsPlain(num: Str -> Str)
    ensures Unambiguous(R.ContractsJson(Contracts())) && Printable(R.ContractsJson(Contracts()), num)
  {
    R.WireKeysDiffer();
    var fields := R.ContractsJson(Contracts()).fields;
    assert DistinctKeys(fields);
  }

  lemma ResponsePlain(num: Str -> Str)
    ensures var response := Object([Field(R.CONTENT, String([0x78]))]);
            Unambiguous(response) && Printable(response, num)
  {
  }

  lemma MembersSane(m: seq<Field>, num: Str -> Str)
    requires DistinctKeys(m) && forall i :: 0 <= i < |m| ==> Unambiguous(m[i].value) && Printable(m[i].value, num)
    ensures R.Sane(m, num)
  {
  }

  lemma OneIsText()
    ensures IsNumberText([0x31])
  {
    DigitsRunOut([0x31]);
  }

  lemma BodyAccepted()
    ensures R.ReadBody(Contracts(), 97, [0x31], [], None, Hex(64), Object(Manifest()), _ => true, Simple())
            == Success(Object(Manifest()))
  {
    ManifestIsManifest();
    ManifestMatchesJob();
    WholeDocument(Manifest());
  }

  lemma WholeDocument(fields: seq<Field>)
    requires fields == Manifest()
    ensures R.Document(fields, 97, Contracts(), [], None) == Success(fields)
  {
    ManifestLookups();
  }
}
