/** A negotiated quote survives being stored, parsed and re-checked. */
module SellerQuoteProofs {
  import opened Wrappers
  import opened JsonValues
  import opened JsonText
  import opened JsonParser
  import opened SellerQuote

  /// Looking members up and taking members out

  lemma {:induction false} LookupMember(fs: seq<Field>, f: Field)
    requires DistinctKeys(fs) && f in FieldSet(fs)
    ensures Lookup(fs, f.key) == Some(f.value)
  {
    if fs[0] != f {
      var i :| 0 <= i < |fs| && fs[i] == f;
      assert fs[0].key != fs[i].key && fs[1..][i - 1] == f;
      LookupMember(fs[1..], f);
    }
  }

  lemma {:induction false} WithoutSet(fs: seq<Field>, a: Str, b: Str)
    ensures FieldSet(Without(fs, a, b)) == set f | f in FieldSet(fs) && f.key != a && f.key != b
    decreases |fs|
  {
    if fs != [] {
      WithoutSet(fs[1..], a, b);
      assert fs == [fs[0]] + fs[1..];
      FieldSetCons(fs[0], fs[1..]);
      FieldSetCons(fs[0], Without(fs[1..], a, b));
      assert [] + Without(fs[1..], a, b) == Without(fs[1..], a, b);
    }
  }

  lemma {:induction false} WithoutOrdered(fs: seq<Field>, a: Str, b: Str)
    requires Ordered(fs)
    ensures Ordered(Without(fs, a, b))
  {
    if fs != [] {
      var w := Without(fs[1..], a, b);
      WithoutOrdered(fs[1..], a, b);
      WithoutSet(fs[1..], a, b);
      forall i | 0 <= i < |w| ensures KeyLess(fs[0].key, w[i].key) {
        assert w[i] in FieldSet(w);
        assert w[i] in FieldSet(fs[1..]);
      }
    }
  }

  /** Canonical text of an object made of `content` and of two extra members named `a` and `b`. */
  ghost predicate Extends(content: seq<Field>, extra: seq<Field>, a: Str, b: Str) {
    && Unambiguous(Object(content + extra))
    && (forall i :: 0 <= i < |content| ==> content[i].key != a && content[i].key != b)
    && (forall i :: 0 <= i < |extra| ==> extra[i].key == a || extra[i].key == b)
  }

  lemma CanonicalMember(fs: seq<Field>, i: nat)
    requires DistinctKeys(fs) && i < |fs|
    ensures Lookup(Canonical(Object(fs)).fields, fs[i].key) == Some(Canonical(fs[i].value))
  {
    var cf := CanonicalFields(fs);
    PropertyOrderSorts(cf);
    OrderedDistinct(PropertyOrder(SortLex(cf)));
    assert cf[i] in FieldSet(cf);
    LookupMember(PropertyOrder(SortLex(cf)), cf[i]);
  }

  /** Parsing the extended object and removing the extra members leaves the content, canonically. */
  lemma ContentRecovered(content: seq<Field>, extra: seq<Field>, a: Str, b: Str)
    requires Extends(content, extra, a, b)
    ensures var rest := Without(Canonical(Object(content + extra)).fields, a, b);
            Object(rest) == Canonical(Object(content)) && Canonical(Object(rest)) == Object(rest)
  {
    var full := content + extra;
    var cf, cc := CanonicalFields(full), CanonicalFields(content);
    var ps := PropertyOrder(SortLex(cf));
    PropertyOrderSorts(cf);
    WithoutSet(ps, a, b);
    WithoutOrdered(ps, a, b);
    ContentDistinctKeys(content, extra);
    CanonicalFieldsDistinct(content);
    PropertyOrderSorts(cc);
    RemainingFields(content, extra, a, b);
    OrderedUnique(Without(ps, a, b), PropertyOrder(SortLex(cc)));
    ContentUnambiguous(content, extra);
    CanonicalUnambiguous(Object(content));
  }

  lemma ContentDistinctKeys(content: seq<Field>, extra: seq<Field>)
    requires DistinctKeys(content + extra)
    ensures DistinctKeys(content)
  {
    var full := content + extra;
    assert forall i :: 0 <= i < |content| ==> full[i] == content[i];
  }

  lemma ContentUnambiguous(content: seq<Field>, extra: seq<Field>)
    requires Unambiguous(Object(content + extra))
    ensures Unambiguous(Object(content))
  {
    ContentDistinctKeys(content, extra);
    var full := content + extra;
    forall i | 0 <= i < |content| ensures Unambiguous(content[i].value) {
      assert full[i] == content[i];
      assert Unambiguous(full[i].value);
    }
  }

  /** The canonical members of the extended object: those of the content, then the extra ones. */
  lemma ExtendedMembers(content: seq<Field>, extra: seq<Field>, a: Str, b: Str)
    requires Extends(content, extra, a, b)
    ensures var cf, cc := CanonicalFields(content + extra), CanonicalFields(content);
            && |cf| == |content| + |extra| && |cc| == |content|
            && (forall i :: 0 <= i < |content| ==> cf[i] == cc[i] && cc[i].key != a && cc[i].key != b)
            && (forall i :: |content| <= i < |cf| ==> cf[i].key == a || cf[i].key == b)
  {
    var full := content + extra;
    forall i | 0 <= i < |full|
      ensures if i < |content| then full[i] == content[i] else full[i] == extra[i - |content|]
    {
    }
  }

  lemma RemainingFields(content: seq<Field>, extra: seq<Field>, a: Str, b: Str)
    requires Extends(content, extra, a, b)
    ensures (set f | f in FieldSet(CanonicalFields(content + extra)) && f.key != a && f.key != b)
            == FieldSet(CanonicalFields(content))
  {
    ExtendedMembers(content, extra, a, b);
    MembersLeft(CanonicalFields(content + extra), CanonicalFields(content), a, b);
  }

  lemma MembersLeft(cf: seq<Field>, cc: seq<Field>, a: Str, b: Str)
    requires |cc| <= |cf|
    requires forall i :: 0 <= i < |cc| ==> cf[i] == cc[i] && cc[i].key != a && cc[i].key != b
    requires forall i :: |cc| <= i < |cf| ==> cf[i].key == a || cf[i].key == b
    ensures (set f | f in FieldSet(cf) && f.key != a && f.key != b) == FieldSet(cc)
  {
    forall f | f in FieldSet(cf) && f.key != a && f.key != b ensures f in FieldSet(cc) {
      var i :| 0 <= i < |cf| && cf[i] == f;
      assert cc[i] == f;
    }
    forall f | f in FieldSet(cc) ensures f in FieldSet(cf) && f.key != a && f.key != b {
      var i :| 0 <= i < |cc| && cc[i] == f;
      assert cf[i] == f;
    }
  }

  /// The signed object

  lemma KeysDiffer()
    ensures |VERSION| == 7 && |NEGOTIATED_AT| == 13 && |QUOTE_EXPIRES_AT| == 16 && |TASK| == 4 && |TERMS| == 5
    ensures |PRICE| == 5 && |CURRENCY| == 8 && |CHAIN_ID| == 8 && |VERIFYING_CONTRACT| == 18
    ensures |NEGOTIATION_HASH| == 16 && |PROVIDER_SIG| == 12
    ensures TERMS[0] != PRICE[0] && CURRENCY[1] != CHAIN_ID[1] && QUOTE_EXPIRES_AT[0] != NEGOTIATION_HASH[0]
    ensures |DELIVERABLES| == 12 && |QUALITY_STANDARDS| == 17 && |SUCCESS_CRITERIA| == 16
  {
  }

  lemma SignedKeysDiffer(r: Reply, task: Str, env: Env)
    ensures DistinctKeys(ContentFields(r, task, env) + SignatureFields(r))
  {
    KeysDiffer();
    var content, extra := ContentFields(r, task, env), SignatureFields(r);
    var full := content + extra;
    assert full == [content[0], content[1], content[2], content[3], content[4], content[5], content[6],
                    content[7], content[8], extra[0], extra[1]];
  }

  lemma SignedValuesUnambiguous(r: Reply, task: Str, env: Env, i: nat)
    requires i < |ContentFields(r, task, env) + SignatureFields(r)|
    ensures Unambiguous((ContentFields(r, task, env) + SignatureFields(r))[i].value)
  {
    SignedTermsUnambiguous(r.responseTerms);
    var content := ContentFields(r, task, env);
    if i == 4 {
      assert (content + SignatureFields(r))[i] == content[4];
    }
  }

  lemma SignedObjectUnambiguous(r: Reply, task: Str, env: Env)
    ensures Extends(ContentFields(r, task, env), SignatureFields(r), PROVIDER_SIG, NEGOTIATION_HASH)
  {
    var full := ContentFields(r, task, env) + SignatureFields(r);
    SignedKeysDiffer(r, task, env);
    forall i | 0 <= i < |full| ensures Unambiguous(full[i].value) {
      SignedValuesUnambiguous(r, task, env, i);
    }
    KeysDiffer();
  }

  lemma SignedTermsUnambiguous(t: Terms)
    ensures Unambiguous(Object(SignedTerms(t))) && DistinctKeys(SignedTerms(t))
  {
    KeysDiffer();
    var fs := SignedTerms(t);
    forall i | 0 <= i < |fs| ensures Unambiguous(fs[i].value) {
      if i == 2 { StringsPlain(SanitizeAll(t.successCriteria.value)); }
    }
  }

  lemma StringsPlain(ss: seq<Str>)
    ensures Unambiguous(Array(Strings(ss)))
    ensures forall num :: Printable(Array(Strings(ss)), num)
  {
  }

  lemma NumPrintable(n: nat, env: Env)
    requires Sound(env) && n <= MAX_SAFE
    ensures Printable(Num(n), env.num)
  {
    DecimalIsNumberText(n);
  }

  lemma SignedTermsPrintable(t: Terms, num: Str -> Str)
    ensures Printable(Object(SignedTerms(t)), num)
  {
    var fs := SignedTerms(t);
    forall i | 0 <= i < |fs| ensures Printable(fs[i].value, num) {
      if i == 2 { StringsPlain(SanitizeAll(t.successCriteria.value)); }
    }
  }

  lemma JoinPrintable(fs: seq<Field>, gs: seq<Field>, num: Str -> Str)
    requires Printable(Object(fs), num) && Printable(Object(gs), num)
    ensures Printable(Object(fs + gs), num)
  {
  }

  lemma ContentValuePrintable(r: Reply, task: Str, env: Env, i: nat)
    requires Sound(env) && ValidReply(r) && i < |ContentFields(r, task, env)|
    ensures Printable(ContentFields(r, task, env)[i].value, env.num)
  {
    if i == 0 {
      NumPrintable(1, env);
    } else if i == 1 {
      NumPrintable(r.negotiatedAt, env);
    } else if i == 2 {
      NumPrintable(r.expiresAt, env);
    } else if i == 4 {
      SignedTermsPrintable(r.responseTerms, env.num);
    } else if i == 7 {
      NumPrintable(r.chainId, env);
    }
  }

  lemma ContentPrintable(r: Reply, task: Str, env: Env)
    requires Sound(env) && ValidReply(r)
    ensures Printable(Object(ContentFields(r, task, env)), env.num)
  {
    var fs := ContentFields(r, task, env);
    forall i | 0 <= i < |fs| ensures Printable(fs[i].value, env.num) {
      ContentValuePrintable(r, task, env, i);
    }
  }

  lemma SignedObjectPrintable(r: Reply, task: Str, env: Env)
    requires Sound(env) && ValidReply(r)
    ensures Printable(Object(ContentFields(r, task, env) + SignatureFields(r)), env.num)
  {
    ContentPrintable(r, task, env);
    JoinPrintable(ContentFields(r, task, env), SignatureFields(r), env.num);
  }

  /// What a stored description parses to

  /** The parsed description of a signed reply, and its members. */
  lemma DescriptionParses(r: Reply, task: Str, env: Env) returns (description: seq<Field>)
    requires Sound(env) && ValidReply(r)
    ensures Parse(SignedDescription(r, task, env), env.num) == Accept(Object(description), [])
    ensures Lookup(description, PROVIDER_SIG) == Some(String(r.providerSig))
    ensures Lookup(description, NEGOTIATION_HASH) == Some(String(r.negotiationHash))
    ensures Object(SignedContent(description)) == Canonical(Object(ContentFields(r, task, env)))
    ensures CanonicalSellerJson(Object(SignedContent(description)))
            == CanonicalSellerJson(Object(ContentFields(r, task, env)))
  {
    var content, extra := ContentFields(r, task, env), SignatureFields(r);
    var full := content + extra;
    SignedObjectUnambiguous(r, task, env);
    SignedObjectPrintable(r, task, env);
    CanonicalRoundTrip(Object(full), env.num);
    description := Canonical(Object(full)).fields;
    ContentRecovered(content, extra, PROVIDER_SIG, NEGOTIATION_HASH);
    CanonicalMember(full, 9);
    CanonicalMember(full, 10);
  }

  /** Each member of the signed content, read back from its canonical form. */
  lemma ContentMember(r: Reply, task: Str, env: Env, content: seq<Field>, i: nat)
    requires Object(content) == Canonical(Object(ContentFields(r, task, env))) && i < 9
    ensures Lookup(content, ContentFields(r, task, env)[i].key) == Some(Canonical(ContentFields(r, task, env)[i].value))
  {
    SignedObjectUnambiguous(r, task, env);
    ContentDistinctKeys(ContentFields(r, task, env), SignatureFields(r));
    CanonicalMember(ContentFields(r, task, env), i);
  }

  lemma TermsMembers(t: Terms)
    ensures var terms := Canonical(Object(SignedTerms(t))).fields;
            Lookup(terms, DELIVERABLES) == Some(String(Sanitize(t.deliverables))) &&
            Lookup(terms, QUALITY_STANDARDS) == Some(String(Sanitize(t.qualityStandards)))
  {
    SignedTermsUnambiguous(t);
    CanonicalMember(SignedTerms(t), 0);
    CanonicalMember(SignedTerms(t), 1);
  }

  lemma ParsedQuoteParses(q: Quote, env: Env)
    requires ParseQuote(q, env).Some?
    ensures var p := ParseQuote(q, env).value;
            ParseQuote(p, env) == Some(p) && p == q.(identity := q.identity.(namespace := Trim(q.identity.namespace)))
  {
    TrimIdempotent(q.identity.namespace);
  }

  /** What a successful negotiation has checked. */
  lemma NegotiationChecked(b: Binding, task: Task, r: Reply, now: int, id: IdentityRead, env: Env)
      returns (signer: Str)
    requires ValidBinding(b)
    requires Negotiate(b, task, r, now, id, env).Success?
    ensures ValidReply(r) && env.recover(r.negotiationHash, r.providerSig) == Some(signer)
    ensures SameText(signer, b.providerAddress)
    ensures r.responseTerms.deliverables == task.deliverables
    ensures r.responseTerms.qualityStandards == task.qualityStandards
    ensures r.chainId == b.identity.chainId && SameText(r.verifyingContract, b.commerceContract)
    ensures SameText(r.currency, b.paymentToken) && PriceAllowed(r.price, b.identity.chainId, b)
    ensures env.keccak(CanonicalSellerJson(Object(ContentFields(r, task.task, env)))) == r.negotiationHash
    ensures ParseQuote(DraftQuote(b, task, r, signer, id, env), env)
            == Some(Negotiate(b, task, r, now, id, env).value)
  {
    signer := env.recover(r.negotiationHash, r.providerSig).value;
  }

  lemma TermsMatch(r: Reply, task: Str, env: Env, content: seq<Field>)
    requires Object(content) == Canonical(Object(ContentFields(r, task, env)))
    ensures Lookup(content, TASK) == Some(String(Sanitize(task)))
    ensures var terms := Members(Lookup(content, TERMS));
            Lookup(terms, DELIVERABLES) == Some(String(Sanitize(r.responseTerms.deliverables))) &&
            Lookup(terms, QUALITY_STANDARDS) == Some(String(Sanitize(r.responseTerms.qualityStandards)))
  {
    ContentMember(r, task, env, content, 3);
    ContentMember(r, task, env, content, 4);
    TermsMembers(r.responseTerms);
  }

  lemma PlainMembers(r: Reply, task: Str, env: Env, content: seq<Field>)
    requires Object(content) == Canonical(Object(ContentFields(r, task, env)))
    ensures Lookup(content, NEGOTIATED_AT) == Some(Num(r.negotiatedAt))
    ensures Lookup(content, QUOTE_EXPIRES_AT) == Some(Num(r.expiresAt))
    ensures Lookup(content, PRICE) == Some(String(r.price)) && Lookup(content, CURRENCY) == Some(String(r.currency))
    ensures Lookup(content, CHAIN_ID) == Some(Num(r.chainId))
    ensures Lookup(content, VERIFYING_CONTRACT) == Some(String(env.checksum(r.verifyingContract)))
  {
    ContentMember(r, task, env, content, 1);
    ContentMember(r, task, env, content, 2);
    ContentMember(r, task, env, content, 5);
    ContentMember(r, task, env, content, 6);
    ContentMember(r, task, env, content, 7);
    ContentMember(r, task, env, content, 8);
  }

  lemma MembersMatch(r: Reply, task: Task, q: Quote, content: seq<Field>, env: Env)
    requires Sound(env)
    requires q.priceAtomic == r.price && q.paymentToken == r.currency && q.chainId == r.chainId
    requires q.commerceContract == r.verifyingContract && q.requestedTask == task.task
    requires q.deliverables == r.responseTerms.deliverables && q.qualityStandards == r.responseTerms.qualityStandards
    requires q.expiresAt == r.expiresAt && q.issuedAt == r.negotiatedAt
    requires Object(content) == Canonical(Object(ContentFields(r, task.task, env)))
    ensures MatchesContent(q, content)
  {
    TermsMatch(r, task.task, env, content);
    PlainMembers(r, task.task, env, content);
    assert SameText(env.checksum(r.verifyingContract), r.verifyingContract);
  }

  /** The stored description matches the draft quote in every member `assertQuote` compares. */
  lemma DraftMatchesDescription(b: Binding, task: Task, r: Reply, signer: Str, id: IdentityRead, env: Env)
    requires Sound(env) && ValidReply(r) && env.recover(r.negotiationHash, r.providerSig) == Some(signer)
    requires r.responseTerms.deliverables == task.deliverables
    requires r.responseTerms.qualityStandards == task.qualityStandards
    requires env.keccak(CanonicalSellerJson(Object(ContentFields(r, task.task, env)))) == r.negotiationHash
    ensures var q := DraftQuote(b, task, r, signer, id, env);
            var d := Parse(q.signedDescription, env.num);
            d.Accept? && MatchesDescription(q, Members(Some(d.value)), env)
  {
    var description := DescriptionParses(r, task.task, env);
    MembersMatch(r, task, DraftQuote(b, task, r, signer, id, env), SignedContent(description), env);
  }

  /**
   A quote returned by `negotiate` passes `assertQuote` under the same binding exactly when
   the binding's namespace has no surrounding white space: the quote schema trims it, the
   binding keeps it.
   */
  lemma NegotiatedQuoteAccepted(b: Binding, task: Task, r: Reply, now: int, id: IdentityRead, env: Env)
    requires ValidBinding(b) && Sound(env)
    ensures var quote := Negotiate(b, task, r, now, id, env);
            quote.Success? ==>
              (AssertQuote(b, quote.value, env) <==> Trim(b.identity.namespace) == b.identity.namespace)
  {
    if Negotiate(b, task, r, now, id, env).Success? {
      var signer := NegotiationChecked(b, task, r, now, id, env);
      DraftMatchesDescription(b, task, r, signer, id, env);
      ParsedQuoteParses(DraftQuote(b, task, r, signer, id, env), env);
    }
  }

  function Spaced(b: Binding): Binding {
    b.(identity := b.identity.(namespace := [0x20] + b.identity.namespace))
  }

  /**
   The failing family: put a space before the namespace of any binding under which a
   negotiation succeeds.  The same reply is still negotiated, and the quote is then refused.
   */
  lemma SpacedNamespaceRefused(b: Binding, task: Task, r: Reply, now: int, id: IdentityRead, env: Env)
    requires ValidBinding(b) && Sound(env)
    ensures ValidBinding(Spaced(b))
    ensures Negotiate(b, task, r, now, id, env).Success? ==>
              var quote := Negotiate(Spaced(b), task, r, now, id, env);
              quote.Success? && !AssertQuote(Spaced(b), quote.value, env)
  {
    var s := Spaced(b);
    SpacedIdentity(b);
    if Negotiate(b, task, r, now, id, env).Success? {
      SpacedNegotiates(b, task, r, now, id, env);
      NegotiatedQuoteAccepted(s, task, r, now, id, env);
      TrimShorter(b.identity.namespace);
    }
  }

  lemma SpacedNegotiates(b: Binding, task: Task, r: Reply, now: int, id: IdentityRead, env: Env)
    requires ValidBinding(b) && ValidBinding(Spaced(b)) && Sound(env) && Negotiate(b, task, r, now, id, env).Success?
    ensures Negotiate(Spaced(b), task, r, now, id, env) == Negotiate(b, task, r, now, id, env)
  {
    var signer := NegotiationChecked(b, task, r, now, id, env);
    SpacedDraft(b, task, r, signer, id, env);
    SpacedChecks(b, task, r, now, env);
  }

  lemma SpacedIdentity(b: Binding)
    ensures Trim(Spaced(b).identity.namespace) == Trim(b.identity.namespace)
    ensures ParseIdentity(Spaced(b).identity) == ParseIdentity(b.identity)
  {
    assert Spaced(b).identity.namespace[1..] == b.identity.namespace;
  }

  lemma SpacedChecks(b: Binding, task: Task, r: Reply, now: int, env: Env)
    requires ValidBinding(b)
    ensures ValidBinding(Spaced(b)) && Refuse(Spaced(b), task, r, now, env) == Refuse(b, task, r, now, env)
  {
    SpacedIdentity(b);
  }

  lemma SpacedDraft(b: Binding, task: Task, r: Reply, signer: Str, id: IdentityRead, env: Env)
    ensures ParseQuote(DraftQuote(Spaced(b), task, r, signer, id, env), env)
            == ParseQuote(DraftQuote(b, task, r, signer, id, env), env)
  {
    SpacedIdentity(b);
  }

  lemma {:induction false} TrimStartShorter(s: Str)
    ensures |TrimStart(s)| <= |s|
  {
    if s != [] { TrimStartShorter(s[1..]); }
  }

  lemma TrimShorter(s: Str)
    ensures |Trim(s)| <= |s|
  {
    TrimStartShorter(s);
  }

  /// What an accepted quote is bound to

  lemma NumInjective(m: nat, n: nat)
    requires Num(m) == Num(n)
    ensures m == n
  {
    assert DecimalValue(Decimal(m)) == DecimalValue(Decimal(n));
  }

  /** The two offers agree on every signed term. */
  predicate SameOffer(p: Quote, q: Quote) {
    && p.priceAtomic == q.priceAtomic && p.chainId == q.chainId
    && p.issuedAt == q.issuedAt && p.expiresAt == q.expiresAt
    && p.negotiationHash == q.negotiationHash && p.providerSignature == q.providerSignature
    && SameText(p.providerAddress, q.providerAddress)
    && SameText(p.commerceContract, q.commerceContract) && SameText(p.paymentToken, q.paymentToken)
    && Sanitize(p.requestedTask) == Sanitize(q.requestedTask)
    && Sanitize(p.deliverables) == Sanitize(q.deliverables)
    && Sanitize(p.qualityStandards) == Sanitize(q.qualityStandards)
  }

  /**
   Two accepted quotes with one signed description agree on every signed term, so a stored
   quote cannot be re-priced, re-dated or moved to another chain, contract or token.
   */
  lemma DescriptionBindsQuote(b: Binding, p: Quote, q: Quote, env: Env)
    requires ValidBinding(b) && p.signedDescription == q.signedDescription
    ensures AssertQuote(b, p, env) && AssertQuote(b, q, env) ==> SameOffer(p, q)
  {
    if AssertQuote(b, p, env) && AssertQuote(b, q, env) {
      NumInjective(p.expiresAt, q.expiresAt);
      NumInjective(p.issuedAt, q.issuedAt);
    }
  }

  /** Replacing the task touches one check only. */
  lemma TaskReplaced(b: Binding, q: Quote, task: Str, env: Env)
    requires Bounded(task, 1600) && ParseQuote(q, env).Some? && IsCanonicalDecimal(b.maxPriceAtomic)
    ensures var other := q.(requestedTask := task);
            && ParseQuote(other, env).Some?
            && (MatchesBinding(b, other) <==> MatchesBinding(b, q))
  {
  }

  lemma TaskInContent(q: Quote, task: Str, description: seq<Field>, env: Env)
    requires MatchesDescription(q, description, env)
    ensures MatchesDescription(q.(requestedTask := task), description, env)
            <==> Sanitize(task) == Sanitize(q.requestedTask)
  {
  }

  /** The task text itself is bound only up to `sanitize`: exactly such replacements are accepted. */
  lemma TaskBoundUpToSanitize(b: Binding, q: Quote, task: Str, env: Env)
    requires ValidBinding(b) && Bounded(task, 1600)
    ensures AssertQuote(b, q, env) ==>
              (AssertQuote(b, q.(requestedTask := task), env) <==> Sanitize(task) == Sanitize(q.requestedTask))
  {
    if AssertQuote(b, q, env) {
      TaskReplaced(b, q, task, env);
      var description := Parse(q.signedDescription, env.num);
      TaskInContent(q, task, Members(Some(description.value)), env);
    }
  }

  /** Two different tasks with one sanitized form. */
  lemma SanitizeConfuses()
    ensures Sanitize([LBRACKET]) == Sanitize([0x28]) && [LBRACKET] != [0x28]
  {
    assert [LBRACKET][1..] == [] && [0x28][1..] == [];
  }

  /** Sanitized text has no square brackets and no control characters but \t, \n and \r. */
  lemma {:induction false} SanitizeClean(s: Str)
    ensures forall i :: 0 <= i < |Sanitize(s)| ==>
              var c := Sanitize(s)[i]; c != LBRACKET && c != RBRACKET && (c < 0x20 ==> c in {0x09, 0x0a, 0x0d})
    ensures Sanitize(Sanitize(s)) == Sanitize(s)
  {
    if s != [] {
      SanitizeClean(s[1..]);
      var head, tail := SanitizeUnit(s[0]), Sanitize(s[1..]);
      if head != [] {
        assert (head + tail)[1..] == tail;
        assert SanitizeUnit(head[0]) == head;
      } else {
        assert head + tail == tail;
      }
    }
  }
}
