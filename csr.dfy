/**
 * The checks a certificate signing request must pass before issuance, and
 * the canonical form its names are brought into.
 */
module Csr {
  import opened Wrappers
  import opened Strings
  import opened Core
  import Strconv

  /** The upper bound on a common name, in bytes (`ub-common-name`, Appendix A.1 of RFC 5280). */
  const MaxCNLength: nat := 64

  /** The signature algorithms that `crypto/x509` names. */
  datatype SignatureAlgorithm =
    | UnknownSignatureAlgorithm
    | MD2WithRSA
    | MD5WithRSA
    | SHA1WithRSA
    | SHA256WithRSA
    | SHA384WithRSA
    | SHA512WithRSA
    | DSAWithSHA1
    | DSAWithSHA256
    | ECDSAWithSHA1
    | ECDSAWithSHA256
    | ECDSAWithSHA384
    | ECDSAWithSHA512
    | SHA256WithRSAPSS
    | SHA384WithRSAPSS
    | SHA512WithRSAPSS

  /** `badSignatureAlgorithms`: the algorithms no longer considered strong enough. */
  const BadSignatureAlgorithms: map<SignatureAlgorithm, bool> := map[
    UnknownSignatureAlgorithm := true,
    MD2WithRSA := true,
    MD5WithRSA := true,
    DSAWithSHA1 := true,
    DSAWithSHA256 := true,
    ECDSAWithSHA1 := true
  ]

  /**
   * Looking an algorithm up in the denylist; an algorithm the map does not
   * hold reads as `false`. Only the unknown algorithm, MD2, MD5, DSA and
   * ECDSA with SHA-1 are refused: RSA with SHA-1 is still accepted.
   */
  predicate IsBadSignatureAlgorithm(alg: SignatureAlgorithm): (bad: bool)
    ensures bad <==> alg in {UnknownSignatureAlgorithm, MD2WithRSA, MD5WithRSA, DSAWithSHA1, DSAWithSHA256, ECDSAWithSHA1}
    ensures alg == SHA1WithRSA ==> !bad
  {
    alg in BadSignatureAlgorithms && BadSignatureAlgorithms[alg]
  }

  /**
   * `CheckSignature`: whether the signature over the to-be-signed bytes
   * verifies with the key under the algorithm. The cryptography is not modelled.
   */
  type SignatureCheck = (SignatureAlgorithm, seq<bv8>, seq<bv8>, PublicKey) -> bool

  /** The parts of a decoded request that the checks look at. */
  datatype Request = Request(
    publicKey: Option<PublicKey>,
    signatureAlgorithm: SignatureAlgorithm,
    rawTbs: seq<bv8>,
    signature: seq<bv8>,
    commonName: string,
    dnsNames: seq<string>)

  /**
   * A decoded request. `publicKey` is `None` when the key could not be
   * extracted; `commonName` is the subject's common name.
   */
  class CertificateRequest {
    var publicKey: Option<PublicKey>
    var signatureAlgorithm: SignatureAlgorithm
    var rawTbs: seq<bv8>
    var signature: seq<bv8>
    var commonName: string
    var dnsNames: seq<string>

    constructor (r: Request)
      ensures Fields() == r
    {
      publicKey := r.publicKey;
      signatureAlgorithm := r.signatureAlgorithm;
      rawTbs := r.rawTbs;
      signature := r.signature;
      commonName := r.commonName;
      dnsNames := r.dnsNames;
    }

    /** The request's current fields, as a value. */
    function Fields(): Request
      reads this
    {
      Request(publicKey, signatureAlgorithm, rawTbs, signature, commonName, dnsNames)
    }
  }

  // ---------------------------------------------------------------- errors

  /** The ways `VerifyCSR` refuses a request. */
  datatype CsrError =
    | InvalidPublicKey(reason: Option<string>)
    | UnsupportedSignatureAlgorithm
    | InvalidSignature
    | NoNames
    | CommonNameTooLong
    | TooManyNames(maxNames: int)
    | PolicyForbids(names: seq<string>)

  const InvalidKeyText: string := "invalid public key in CSR"
  const KeyReasonPrefix: string := "invalid public key in CSR: "
  const UnsupportedAlgorithmText: string := "signature algorithm not supported"
  const InvalidSignatureText: string := "invalid signature on CSR"
  const NoNamesText: string := "at least one DNS name is required"
  const CommonNameTooLongPrefix: string := "CN was longer than "
  const TooManyNamesPrefix: string := "CSR contains more than "
  const TooManyNamesSuffix: string := " DNS names"
  const PolicyPrefix: string := "policy forbids issuing for: "

  /** The text of each error. */
  function Message(e: CsrError): string {
    match e
    case InvalidPublicKey(None) => InvalidKeyText
    case InvalidPublicKey(Some(reason)) => KeyReasonPrefix + reason
    case UnsupportedSignatureAlgorithm => UnsupportedAlgorithmText
    case InvalidSignature => InvalidSignatureText
    case NoNames => NoNamesText
    case CommonNameTooLong => CommonNameTooLongPrefix + Strconv.FormatInt(MaxCNLength) + " bytes"
    case TooManyNames(maxNames) => TooManyNamesPrefix + Strconv.FormatInt(maxNames) + TooManyNamesSuffix
    case PolicyForbids(names) => PolicyPrefix + Join(names, ", ")
  }

  predicate HasPrefix(s: string, prefix: string) {
    |prefix| <= |s| && s[..|prefix|] == prefix
  }

  /** Reads an error back from its text; a policy refusal's names are split at ", ". */
  function ParseMessage(message: string): Option<CsrError> {
    if message == InvalidKeyText then Some(InvalidPublicKey(None))
    else if HasPrefix(message, KeyReasonPrefix) then Some(InvalidPublicKey(Some(message[|KeyReasonPrefix|..])))
    else if message == UnsupportedAlgorithmText then Some(UnsupportedSignatureAlgorithm)
    else if message == InvalidSignatureText then Some(InvalidSignature)
    else if message == NoNamesText then Some(NoNames)
    else if message == Message(CommonNameTooLong) then Some(CommonNameTooLong)
    else if HasPrefix(message, TooManyNamesPrefix) && |TooManyNamesPrefix| + |TooManyNamesSuffix| <= |message| &&
      Strconv.ParseInt(message[|TooManyNamesPrefix|..|message| - |TooManyNamesSuffix|]).Some? then
      Some(TooManyNames(Strconv.ParseInt(message[|TooManyNamesPrefix|..|message| - |TooManyNamesSuffix|]).value))
    else if HasPrefix(message, PolicyPrefix) then Some(PolicyForbids(SplitCommaSpace(message[|PolicyPrefix|..])))
    else None
  }

  /** The refusals whose text names them unambiguously: at least one name, none holding a comma. */
  predicate Readable(e: CsrError) {
    e.PolicyForbids? ==> e.names != [] && forall k :: 0 <= k < |e.names| ==> ',' !in e.names[k]
  }

  /** The texts without a payload read back. */
  lemma FixedTextsRoundTrip(e: CsrError)
    requires e.InvalidPublicKey? ==> e.reason.None?
    requires !e.TooManyNames? && !e.PolicyForbids?
    ensures ParseMessage(Message(e)) == Some(e)
  {
    var m := Message(e);
    if e.CommonNameTooLong? {
      assert Strconv.FormatInt(MaxCNLength) == "64";
    }
    if !e.InvalidPublicKey? {
      assert m[0] != KeyReasonPrefix[0] || m[8] != KeyReasonPrefix[8];
    }
  }

  /** An invalid-key text gives back the key policy's exact reason. */
  lemma KeyReasonRoundTrip(reason: string)
    ensures ParseMessage(Message(InvalidPublicKey(Some(reason)))) == Some(InvalidPublicKey(Some(reason)))
  {
    var m := Message(InvalidPublicKey(Some(reason)));
    assert m[..|KeyReasonPrefix|] == KeyReasonPrefix;
    assert m[|KeyReasonPrefix|..] == reason;
  }

  /** A text with the too-many-names prefix and suffix around a number reads as that limit. */
  lemma ParseTooManyNamesText(m: string, maxNames: int)
    requires HasPrefix(m, TooManyNamesPrefix) && |TooManyNamesPrefix| + |TooManyNamesSuffix| <= |m|
    requires Strconv.ParseInt(m[|TooManyNamesPrefix|..|m| - |TooManyNamesSuffix|]) == Some(maxNames)
    ensures ParseMessage(m) == Some(TooManyNames(maxNames))
  {
    assert m[0] == TooManyNamesPrefix[0] && m[1] == TooManyNamesPrefix[1];
  }

  /** A too-many-names text gives back the limit it was raised for. */
  lemma TooManyNamesRoundTrip(maxNames: int)
    ensures ParseMessage(Message(TooManyNames(maxNames))) == Some(TooManyNames(maxNames))
  {
    var m := Message(TooManyNames(maxNames));
    assert m[..|TooManyNamesPrefix|] == TooManyNamesPrefix;
    assert m[|TooManyNamesPrefix|..|m| - |TooManyNamesSuffix|] == Strconv.FormatInt(maxNames);
    Strconv.ParseFormatInt(maxNames);
    ParseTooManyNamesText(m, maxNames);
  }

  /** A text with the policy prefix reads as a policy refusal. */
  lemma ParsePolicyText(m: string)
    requires HasPrefix(m, PolicyPrefix)
    ensures ParseMessage(m) == Some(PolicyForbids(SplitCommaSpace(m[|PolicyPrefix|..])))
  {
    assert m[0] == PolicyPrefix[0];
  }

  /** A policy refusal's text gives back the refused names, in order. */
  lemma PolicyRoundTrip(names: seq<string>)
    requires Readable(PolicyForbids(names))
    ensures ParseMessage(Message(PolicyForbids(names))) == Some(PolicyForbids(names))
  {
    var m := Message(PolicyForbids(names));
    assert m[..|PolicyPrefix|] == PolicyPrefix;
    ParsePolicyText(m);
    assert m[|PolicyPrefix|..] == Join(names, ", ");
    SplitJoin(names);
  }

  /** Every error text reads back as the error it was printed from. */
  lemma MessageRoundTrip(e: CsrError)
    requires Readable(e)
    ensures ParseMessage(Message(e)) == Some(e)
  {
    match e
    case InvalidPublicKey(Some(reason)) => KeyReasonRoundTrip(reason);
    case TooManyNames(maxNames) => TooManyNamesRoundTrip(maxNames);
    case PolicyForbids(names) => PolicyRoundTrip(names);
    case _ => FixedTextsRoundTrip(e);
  }

  /** Two readable errors with the same text are the same error. */
  lemma MessageInjective(e1: CsrError, e2: CsrError)
    requires Readable(e1) && Readable(e2)
    requires Message(e1) == Message(e2)
    ensures e1 == e2
  {
    MessageRoundTrip(e1);
    MessageRoundTrip(e2);
  }

  // ---------------------------------------------------------------- the policy step

  /** The identifier the policy authority is asked about for a DNS name. */
  function DnsIdentifier(name: string): AcmeIdentifier {
    AcmeIdentifier(DNS, name)
  }

  /** The names the policy refuses, in the order they appear. */
  function DeniedNames(names: seq<string>, willing: IssuanceDecision, regID: int): (denied: seq<string>)
    ensures |denied| <= |names|
  {
    if names == [] then []
    else
      var last := names[|names| - 1];
      var init := DeniedNames(names[..|names| - 1], willing, regID);
      if willing(DnsIdentifier(last), regID) then init else init + [last]
  }

  /** A name is refused exactly when it is listed and the policy is unwilling to issue for it. */
  lemma {:induction false} DeniedNamesMembers(names: seq<string>, willing: IssuanceDecision, regID: int, name: string)
    ensures name in DeniedNames(names, willing, regID) <==> name in names && !willing(DnsIdentifier(name), regID)
  {
    if names != [] {
      var init := names[..|names| - 1];
      DeniedNamesMembers(init, willing, regID, name);
      assert names == init + [names[|names| - 1]];
    }
  }

  /** Refusals keep the input order: those of a concatenation are those of each part, in turn. */
  lemma {:induction false} DeniedNamesAppend(a: seq<string>, b: seq<string>, willing: IssuanceDecision, regID: int)
    ensures DeniedNames(a + b, willing, regID) == DeniedNames(a, willing, regID) + DeniedNames(b, willing, regID)
  {
    if b != [] {
      var init := b[..|b| - 1];
      DeniedNamesAppend(a, init, willing, regID);
      assert (a + b)[..|a + b| - 1] == a + init;
    } else {
      assert a + b == a;
    }
  }

  /** Nothing is refused exactly when the policy is willing to issue for every name. */
  lemma {:induction false} DeniedNamesEmpty(names: seq<string>, willing: IssuanceDecision, regID: int)
    ensures DeniedNames(names, willing, regID) == [] <==> forall k :: 0 <= k < |names| ==> willing(DnsIdentifier(names[k]), regID)
  {
    if names != [] {
      var init := names[..|names| - 1];
      DeniedNamesEmpty(init, willing, regID);
      assert forall k :: 0 <= k < |init| ==> init[k] == names[k];
    }
  }

  /** The questions the policy step asks: one per name, in order. */
  function PolicyQueries(names: seq<string>, regID: int): (q: seq<(AcmeIdentifier, int)>)
    ensures |q| == |names|
    ensures forall k :: 0 <= k < |names| ==> q[k] == (DnsIdentifier(names[k]), regID)
  {
    if names == [] then []
    else PolicyQueries(names[..|names| - 1], regID) + [(DnsIdentifier(names[|names| - 1]), regID)]
  }

  // ---------------------------------------------------------------- the verdict

  /** Everything `VerifyCSR` is given besides the request. */
  datatype Inputs = Inputs(
    maxNames: int,
    goodKey: KeyPolicy,
    checkSignature: SignatureCheck,
    willing: IssuanceDecision,
    regID: int)

  /** The checks made before any name is put to the policy, in the order they are made. */
  function PrePolicyVerdict(r: Request, inputs: Inputs): Option<CsrError> {
    if r.publicKey.None? then Some(InvalidPublicKey(None))
    else if inputs.goodKey(r.publicKey.value).Some? then Some(InvalidPublicKey(inputs.goodKey(r.publicKey.value)))
    else if IsBadSignatureAlgorithm(r.signatureAlgorithm) then Some(UnsupportedSignatureAlgorithm)
    else if !inputs.checkSignature(r.signatureAlgorithm, r.rawTbs, r.signature, r.publicKey.value) then Some(InvalidSignature)
    else if |r.dnsNames| == 0 && r.commonName == "" then Some(NoNames)
    else if ByteLen(r.commonName) > MaxCNLength then Some(CommonNameTooLong)
    else if inputs.maxNames > 0 && |r.dnsNames| > inputs.maxNames then Some(TooManyNames(inputs.maxNames))
    else None
  }

  /** `VerifyCSR`'s answer: `None` accepts the request. */
  function Verdict(r: Request, inputs: Inputs): Option<CsrError> {
    var pre := PrePolicyVerdict(r, inputs);
    if pre.Some? then pre
    else
      var denied := DeniedNames(r.dnsNames, inputs.willing, inputs.regID);
      if denied != [] then Some(PolicyForbids(denied)) else None
  }

  /** The checks, each on its own. */
  datatype Check =
    | KeyPresent
    | KeyStrength
    | AlgorithmAllowed
    | SignatureValid
    | NamesPresent
    | CommonNameLength
    | NameCount
    | IssuancePolicy

  /** The order in which the checks are made: the key first, the policy last. */
  const CheckOrder: seq<Check> := [KeyPresent, KeyStrength, AlgorithmAllowed, SignatureValid, NamesPresent, CommonNameLength, NameCount, IssuancePolicy]

  /**
   * The error a single check raises on a request, or `None` if the check
   * passes. The checks that need a key pass vacuously when there is none:
   * `KeyPresent` stops such a request first.
   */
  function Failure(c: Check, r: Request, inputs: Inputs): Option<CsrError> {
    match c
    case KeyPresent =>
      if r.publicKey.None? then Some(InvalidPublicKey(None)) else None
    case KeyStrength =>
      if r.publicKey.Some? && inputs.goodKey(r.publicKey.value).Some? then Some(InvalidPublicKey(inputs.goodKey(r.publicKey.value))) else None
    case AlgorithmAllowed =>
      if IsBadSignatureAlgorithm(r.signatureAlgorithm) then Some(UnsupportedSignatureAlgorithm) else None
    case SignatureValid =>
      if r.publicKey.Some? && !inputs.checkSignature(r.signatureAlgorithm, r.rawTbs, r.signature, r.publicKey.value) then Some(InvalidSignature) else None
    case NamesPresent =>
      if |r.dnsNames| == 0 && r.commonName == "" then Some(NoNames) else None
    case CommonNameLength =>
      if ByteLen(r.commonName) > MaxCNLength then Some(CommonNameTooLong) else None
    case NameCount =>
      if inputs.maxNames > 0 && |r.dnsNames| > inputs.maxNames then Some(TooManyNames(inputs.maxNames)) else None
    case IssuancePolicy =>
      var denied := DeniedNames(r.dnsNames, inputs.willing, inputs.regID);
      if denied != [] then Some(PolicyForbids(denied)) else None
  }

  /** The error of the first check in `checks` that fails, if any. */
  function FirstFailure(checks: seq<Check>, r: Request, inputs: Inputs): Option<CsrError> {
    if checks == [] then None
    else
      var f := Failure(checks[0], r, inputs);
      if f.Some? then f else FirstFailure(checks[1..], r, inputs)
  }

  /**
   * `FirstFailure` is `None` exactly when every check passes, and otherwise
   * is the error of a failing check that every earlier check passed.
   */
  lemma {:induction false} FirstFailureIsFirst(checks: seq<Check>, r: Request, inputs: Inputs)
    ensures FirstFailure(checks, r, inputs).None? <==> forall k :: 0 <= k < |checks| ==> Failure(checks[k], r, inputs).None?
    ensures FirstFailure(checks, r, inputs).Some? ==>
      exists k :: 0 <= k < |checks| && Failure(checks[k], r, inputs) == FirstFailure(checks, r, inputs) &&
        forall j :: 0 <= j < k ==> Failure(checks[j], r, inputs).None?
  {
    if checks != [] && Failure(checks[0], r, inputs).None? {
      var tail := checks[1..];
      FirstFailureIsFirst(tail, r, inputs);
      assert forall k :: 0 <= k < |tail| ==> tail[k] == checks[k + 1];
      if FirstFailure(tail, r, inputs).Some? {
        var k :| 0 <= k < |tail| && Failure(tail[k], r, inputs) == FirstFailure(tail, r, inputs) &&
          forall j :: 0 <= j < k ==> Failure(tail[j], r, inputs).None?;
        assert Failure(checks[k + 1], r, inputs) == FirstFailure(checks, r, inputs);
      }
    }
  }

  /** One step of `FirstFailure`. */
  lemma FirstFailureCons(c: Check, rest: seq<Check>, r: Request, inputs: Inputs)
    ensures FirstFailure([c] + rest, r, inputs) ==
      if Failure(c, r, inputs).Some? then Failure(c, r, inputs) else FirstFailure(rest, r, inputs)
  {
    assert ([c] + rest)[1..] == rest;
  }

  /** The checks in `CheckOrder`, one after the other, stopping at the first that fails. */
  lemma FirstFailureOfCheckOrder(r: Request, inputs: Inputs)
    ensures FirstFailure(CheckOrder, r, inputs) ==
      if Failure(KeyPresent, r, inputs).Some? then Failure(KeyPresent, r, inputs) else
      if Failure(KeyStrength, r, inputs).Some? then Failure(KeyStrength, r, inputs) else
      if Failure(AlgorithmAllowed, r, inputs).Some? then Failure(AlgorithmAllowed, r, inputs) else
      if Failure(SignatureValid, r, inputs).Some? then Failure(SignatureValid, r, inputs) else
      if Failure(NamesPresent, r, inputs).Some? then Failure(NamesPresent, r, inputs) else
      if Failure(CommonNameLength, r, inputs).Some? then Failure(CommonNameLength, r, inputs) else
      if Failure(NameCount, r, inputs).Some? then Failure(NameCount, r, inputs) else
      Failure(IssuancePolicy, r, inputs)
  {
    var tail: seq<Check> := [];
    FirstFailureCons(IssuancePolicy, tail, r, inputs);
    tail := [IssuancePolicy] + tail;
    FirstFailureCons(NameCount, tail, r, inputs);
    tail := [NameCount] + tail;
    FirstFailureCons(CommonNameLength, tail, r, inputs);
    tail := [CommonNameLength] + tail;
    FirstFailureCons(NamesPresent, tail, r, inputs);
    tail := [NamesPresent] + tail;
    FirstFailureCons(SignatureValid, tail, r, inputs);
    tail := [SignatureValid] + tail;
    FirstFailureCons(AlgorithmAllowed, tail, r, inputs);
    tail := [AlgorithmAllowed] + tail;
    FirstFailureCons(KeyStrength, tail, r, inputs);
    tail := [KeyStrength] + tail;
    FirstFailureCons(KeyPresent, tail, r, inputs);
    tail := [KeyPresent] + tail;
    assert tail == CheckOrder;
  }

  /** `VerifyCSR` answers with the error of the first check, in `CheckOrder`, that fails. */
  lemma VerdictIsFirstFailure(r: Request, inputs: Inputs)
    ensures Verdict(r, inputs) == FirstFailure(CheckOrder, r, inputs)
  {
    FirstFailureOfCheckOrder(r, inputs);
  }

  /** A request passes every check exactly when it is accepted. */
  lemma AcceptedIffAllChecksPass(r: Request, inputs: Inputs)
    ensures Verdict(r, inputs).None? <==> forall k :: 0 <= k < |CheckOrder| ==> Failure(CheckOrder[k], r, inputs).None?
  {
    VerdictIsFirstFailure(r, inputs);
    FirstFailureIsFirst(CheckOrder, r, inputs);
  }

  /**
   * The key comes first: a missing key, or one the key policy rejects, is
   * reported as an invalid key (with the policy's reason), whatever else is
   * wrong with the request.
   */
  lemma KeyCheckedFirst(r: Request, inputs: Inputs)
    ensures r.publicKey.None? ==> Verdict(r, inputs) == Some(InvalidPublicKey(None))
    ensures r.publicKey.Some? ==>
      var reason := inputs.goodKey(r.publicKey.value);
      reason.Some? ==> Verdict(r, inputs) == Some(InvalidPublicKey(reason))
    ensures Verdict(r, inputs).Some? && Verdict(r, inputs).value.InvalidPublicKey? <==>
      r.publicKey.None? || inputs.goodKey(r.publicKey.value).Some?
  {
  }

  /** With a good key, a weak algorithm is refused as unsupported, and nothing else is. */
  lemma AlgorithmDenylist(r: Request, inputs: Inputs)
    requires r.publicKey.Some? && inputs.goodKey(r.publicKey.value).None?
    ensures Verdict(r, inputs) == Some(UnsupportedSignatureAlgorithm) <==> IsBadSignatureAlgorithm(r.signatureAlgorithm)
  {
  }

  /** The checks before the presence of names all pass. */
  predicate KeyAndSignatureGood(r: Request, inputs: Inputs) {
    r.publicKey.Some? && inputs.goodKey(r.publicKey.value).None? && !IsBadSignatureAlgorithm(r.signatureAlgorithm) &&
    inputs.checkSignature(r.signatureAlgorithm, r.rawTbs, r.signature, r.publicKey.value)
  }

  /**
   * Once the key is good and the algorithm allowed, the request is refused
   * for its signature exactly when the signature does not verify.
   */
  lemma SignatureChecked(r: Request, inputs: Inputs)
    requires r.publicKey.Some? && inputs.goodKey(r.publicKey.value).None?
    requires !IsBadSignatureAlgorithm(r.signatureAlgorithm)
    ensures Verdict(r, inputs) == Some(InvalidSignature) <==>
      !inputs.checkSignature(r.signatureAlgorithm, r.rawTbs, r.signature, r.publicKey.value)
  {
  }

  /** Once key and signature are good, a request without any name is refused, and only such a request. */
  lemma NamesRequired(r: Request, inputs: Inputs)
    requires KeyAndSignatureGood(r, inputs)
    ensures Verdict(r, inputs) == Some(NoNames) <==> r.dnsNames == [] && r.commonName == ""
  {
  }

  /**
   * Once the earlier checks pass, a common name is refused exactly when its
   * UTF-8 encoding is longer than 64 bytes: 64 bytes pass, 65 do not.
   */
  lemma CommonNameBound(r: Request, inputs: Inputs)
    requires KeyAndSignatureGood(r, inputs) && (r.dnsNames != [] || r.commonName != "")
    ensures Verdict(r, inputs) == Some(CommonNameTooLong) <==> ByteLen(r.commonName) > MaxCNLength
    ensures IsAscii(r.commonName) ==> (Verdict(r, inputs) == Some(CommonNameTooLong) <==> |r.commonName| > 64)
  {
    ByteLenAscii(r.commonName);
  }

  /**
   * Once the earlier checks pass, a limit of zero or less lets any number of
   * names through; a positive limit refuses more names than it, not as many.
   */
  lemma NameCountBound(r: Request, inputs: Inputs)
    requires KeyAndSignatureGood(r, inputs) && (r.dnsNames != [] || r.commonName != "")
    requires ByteLen(r.commonName) <= MaxCNLength
    ensures inputs.maxNames <= 0 ==> !Verdict(r, inputs).Some? || !Verdict(r, inputs).value.TooManyNames?
    ensures Verdict(r, inputs) == Some(TooManyNames(inputs.maxNames)) <==> inputs.maxNames > 0 && |r.dnsNames| > inputs.maxNames
  {
  }

  /**
   * Once every earlier check passes, the request is accepted exactly when the
   * policy allows every name, and otherwise refused with the refused names.
   */
  lemma PolicyDecides(r: Request, inputs: Inputs)
    requires PrePolicyVerdict(r, inputs).None?
    ensures Verdict(r, inputs).None? <==> forall k :: 0 <= k < |r.dnsNames| ==> inputs.willing(DnsIdentifier(r.dnsNames[k]), inputs.regID)
    ensures Verdict(r, inputs).Some? ==> Verdict(r, inputs) == Some(PolicyForbids(DeniedNames(r.dnsNames, inputs.willing, inputs.regID)))
  {
    DeniedNamesEmpty(r.dnsNames, inputs.willing, inputs.regID);
  }

  /**
   * The loop of the policy step: asks the policy authority about every name,
   * in order, and collects the names it refuses.
   */
  method CollectDeniedNames(names: seq<string>, pa: PolicyAuthority, regID: int) returns (badNames: seq<string>)
    modifies pa`queries
    ensures badNames == DeniedNames(names, pa.willing, regID)
    ensures pa.queries == old(pa.queries) + PolicyQueries(names, regID)
  {
    badNames := [];
    for i := 0 to |names|
      invariant badNames == DeniedNames(names[..i], pa.willing, regID)
      invariant pa.queries == old(pa.queries) + PolicyQueries(names[..i], regID)
    {
      assert names[..i + 1][..i] == names[..i];
      var ok := pa.WillingToIssue(DnsIdentifier(names[i]), regID);
      if !ok {
        badNames := badNames + [names[i]];
      }
    }
    assert names[..|names|] == names;
  }

  /** `VerifyCSR`. The request is left unchanged; the policy authority is asked about every name, in order, once the earlier checks pass. */
  method VerifyCSR(csr: CertificateRequest, maxNames: int, goodKey: KeyPolicy, checkSignature: SignatureCheck, pa: PolicyAuthority, regID: int)
    returns (err: Option<CsrError>)
    modifies pa`queries
    ensures err == Verdict(csr.Fields(), Inputs(maxNames, goodKey, checkSignature, pa.willing, regID))
    ensures pa.queries == old(pa.queries) +
      if PrePolicyVerdict(csr.Fields(), Inputs(maxNames, goodKey, checkSignature, pa.willing, regID)).None?
      then PolicyQueries(csr.dnsNames, regID) else []
  {
    if csr.publicKey.None? {
      return Some(InvalidPublicKey(None));
    }
    var key := csr.publicKey.value;
    var reason := goodKey(key);
    if reason.Some? {
      return Some(InvalidPublicKey(reason));
    }
    if IsBadSignatureAlgorithm(csr.signatureAlgorithm) {
      return Some(UnsupportedSignatureAlgorithm);
    }
    if !checkSignature(csr.signatureAlgorithm, csr.rawTbs, csr.signature, key) {
      return Some(InvalidSignature);
    }
    if |csr.dnsNames| == 0 && csr.commonName == "" {
      return Some(NoNames);
    }
    if ByteLen(csr.commonName) > MaxCNLength {
      return Some(CommonNameTooLong);
    }
    if maxNames > 0 && |csr.dnsNames| > maxNames {
      return Some(TooManyNames(maxNames));
    }
    var badNames := CollectDeniedNames(csr.dnsNames, pa, regID);
    if |badNames| > 0 {
      return Some(PolicyForbids(badNames));
    }
    return None;
  }

  // ---------------------------------------------------------------- normalisation

  /** The common name before lower-casing: the first DNS name is hoisted into an empty one when forced. */
  function HoistedCommonName(cn: string, names: seq<string>, forceCNFromSAN: bool): string {
    if forceCNFromSAN && cn == "" then
      if |names| > 0 then names[0] else cn
    else cn
  }

  /** The DNS names before de-duplication: a non-empty common name that was not hoisted into is appended. */
  function NamesWithCommonName(cn: string, names: seq<string>, forceCNFromSAN: bool): seq<string> {
    if forceCNFromSAN && cn == "" then names
    else if cn != "" then names + [cn]
    else names
  }

  /** The common name `NormalizeCSR` leaves. */
  function NormalizedCommonName(cn: string, names: seq<string>, forceCNFromSAN: bool): string {
    ToLower(HoistedCommonName(cn, names, forceCNFromSAN))
  }

  /** The DNS names `NormalizeCSR` leaves. */
  function NormalizedNames(cn: string, names: seq<string>, forceCNFromSAN: bool): seq<string> {
    UniqueLowerNames(NamesWithCommonName(cn, names, forceCNFromSAN))
  }

  /** `NormalizeCSR`: rewrites the common name and the DNS names in place, and nothing else. */
  method NormalizeCSR(csr: CertificateRequest, forceCNFromSAN: bool)
    modifies csr`commonName, csr`dnsNames
    ensures csr.commonName == NormalizedCommonName(old(csr.commonName), old(csr.dnsNames), forceCNFromSAN)
    ensures csr.dnsNames == NormalizedNames(old(csr.commonName), old(csr.dnsNames), forceCNFromSAN)
  {
    if forceCNFromSAN && csr.commonName == "" {
      if |csr.dnsNames| > 0 {
        csr.commonName := csr.dnsNames[0];
      }
    } else if csr.commonName != "" {
      csr.dnsNames := csr.dnsNames + [csr.commonName];
    }
    csr.commonName := ToLower(csr.commonName);
    csr.dnsNames := UniqueLowerNames(csr.dnsNames);
  }

  /**
   * The normalised names are lower case and distinct, and are the original
   * names lower-cased, together with the lower-cased common name when there
   * was one. Whether the common name is forced from the names does not
   * change the names.
   */
  lemma NormalizedNamesContents(cn: string, names: seq<string>, forceCNFromSAN: bool)
    ensures var unique := NormalizedNames(cn, names, forceCNFromSAN);
      AllLower(unique) && NoDuplicates(unique) &&
      Elements(unique) == LowerSet(names) + (if cn != "" then {ToLower(cn)} else {})
    ensures NormalizedNames(cn, names, forceCNFromSAN) == NormalizedNames(cn, names, !forceCNFromSAN)
  {
    if cn != "" {
      LowerSetAppend(names, cn);
    }
  }

  /** The normalised common name is lower case, and is the lower-cased original unless one was hoisted. */
  lemma NormalizedCommonNameCases(cn: string, names: seq<string>, forceCNFromSAN: bool)
    ensures IsLower(NormalizedCommonName(cn, names, forceCNFromSAN))
    ensures forceCNFromSAN && cn == "" && names != [] ==> NormalizedCommonName(cn, names, forceCNFromSAN) == ToLower(names[0])
    ensures !(forceCNFromSAN && cn == "" && names != []) ==> NormalizedCommonName(cn, names, forceCNFromSAN) == ToLower(cn)
  {
  }

  /** A non-empty normalised common name is always one of the normalised DNS names. */
  lemma {:induction false} CommonNameListed(cn: string, names: seq<string>, forceCNFromSAN: bool)
    ensures var c := NormalizedCommonName(cn, names, forceCNFromSAN);
      c != "" ==> c in Elements(NormalizedNames(cn, names, forceCNFromSAN))
  {
    NormalizedNamesContents(cn, names, forceCNFromSAN);
    if forceCNFromSAN && cn == "" && names != [] {
      assert ToLower(names[0]) in LowerSet(names);
    }
  }

  /** Lower-casing names that are already lower case changes none of them. */
  lemma LowerSetOfLower(names: seq<string>)
    requires AllLower(names)
    ensures LowerSet(names) == Elements(names)
  {
    forall k | 0 <= k < |names| ensures ToLower(names[k]) == names[k] {
      ToLowerOfLower(names[k]);
    }
  }

  /** Normalising twice leaves the same set of DNS names as normalising once. */
  lemma NormalizeIdempotentNames(cn: string, names: seq<string>, forceCNFromSAN: bool)
    ensures var cn1, names1 := NormalizedCommonName(cn, names, forceCNFromSAN), NormalizedNames(cn, names, forceCNFromSAN);
      Elements(NormalizedNames(cn1, names1, forceCNFromSAN)) == Elements(names1)
  {
    var cn1, names1 := NormalizedCommonName(cn, names, forceCNFromSAN), NormalizedNames(cn, names, forceCNFromSAN);
    NormalizedNamesContents(cn1, names1, forceCNFromSAN);
    LowerSetOfLower(names1);
    if cn1 != "" {
      CommonNameListed(cn, names, forceCNFromSAN);
      NormalizedCommonNameCases(cn, names, forceCNFromSAN);
      ToLowerIdempotent(HoistedCommonName(cn, names, forceCNFromSAN));
    }
  }

  /**
   * Normalising twice leaves the same common name as normalising once,
   * except when an empty first DNS name was hoisted into an empty common name.
   */
  lemma NormalizeIdempotentCommonName(cn: string, names: seq<string>, forceCNFromSAN: bool)
    requires !(forceCNFromSAN && cn == "" && names != [] && names[0] == "")
    ensures var cn1, names1 := NormalizedCommonName(cn, names, forceCNFromSAN), NormalizedNames(cn, names, forceCNFromSAN);
      NormalizedCommonName(cn1, names1, forceCNFromSAN) == cn1
  {
    var cn1, names1 := NormalizedCommonName(cn, names, forceCNFromSAN), NormalizedNames(cn, names, forceCNFromSAN);
    ToLowerIdempotent(HoistedCommonName(cn, names, forceCNFromSAN));
    if cn1 == "" {
      ToLowerEmpty(HoistedCommonName(cn, names, forceCNFromSAN));
      NormalizedNamesContents(cn, names, forceCNFromSAN);
      if forceCNFromSAN {
        assert names == [];
        ElementsEmpty(names1);
      }
    }
  }
}
