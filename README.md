# Certificate-request checks and the feature-flag stringer, in Dafny

This project models two parts of Boulder, the ACME certificate authority.

**Admission and normalisation of certificate signing requests (`csr/csr.go`).**
`VerifyCSR` decides whether a decoded request may go on to issuance. It makes a fixed
sequence of checks and returns the first failure:
1. the public key is extracted, then judged by the key policy;
2. the signature algorithm is checked against a denylist;
3. the self-signature is checked;
4. at least one name must be present;
5. the common name may be at most 64 bytes;
6. an optional cap limits the number of DNS names;
7. finally, every DNS name is put to the policy authority. All the names refused are
   collected into one error.

`NormalizeCSR` rewrites a request in place:
- it either hoists the first DNS name into an empty common name, or appends a non-empty
  common name to the DNS names;
- it then lower-cases the common name and replaces the DNS names with their lower-cased,
  de-duplicated form.

**The generated `FeatureFlag.String` (`features/featureflag_string.go`).** All the flag
names are packed into one string, with an offset table into it. A flag prints as its
slice of that string. Any other value prints as `FeatureFlag(<decimal>)`.

Modules:
- `Wrappers` holds `Option`.
- `Strconv` has decimal formatting with its parser and round trip.
- `Strings` has ASCII lower-casing, `Join` with a splitter that inverts it, and UTF-8 byte
  length.
- `Core` models the collaborators: identifiers, key policy, the policy authority, and
  `UniqueLowerNames`.
- `Csr` models `csr/csr.go`.
- `Features` models `features/featureflag_string.go`.

How the imperative code is modelled:
- The request is a class, `Csr.CertificateRequest`. `NormalizeCSR` assigns its
  `commonName` and `dnsNames` fields.
- `VerifyCSR` is a method that leaves the request alone. It returns at the first failing
  check. Its policy loop collects refused names in an accumulator, and the loop invariant
  ties that accumulator to `DeniedNames`.
- The policy authority is a class with a ghost log of the questions put to it. This lets
  `VerifyCSR`'s contract say that every name is asked about, in order, exactly when the
  earlier checks pass.
- Each method is proved against a specification function: `Verdict`,
  `NormalizedCommonName` or `NormalizedNames`. The properties are proved as lemmas about
  those functions.
- The checks are also given one by one (`Failure`). `VerdictIsFirstFailure` shows that
  the verdict is the error of the first failing check in `CheckOrder`.

Two consequences of the code's order are worth stating:
- The key is checked before the signature-algorithm denylist (`csr/csr.go:34-45`), so a
  request with both a bad key and a bad algorithm is refused for its key.
- A common name hoisted from the DNS names is lower-cased, like any other common name
  (`csr/csr.go:78`, `csr/csr.go:83`).

`_FeatureFlag_name` is written as the concatenation of the 18 flag names. `NameIsPacked`
proves that it is the names packed in declaration order. The 284 characters are the same
as the generated constant.

## Model

| member | source | states |
|---|---|---|
| Csr.IsBadSignatureAlgorithm | csr/csr.go:23-30 | an algorithm is refused exactly when it is one of the six listed (unknown, MD2, MD5, DSA with SHA-1 or SHA-256, ECDSA with SHA-1); RSA with SHA-1 and every unlisted algorithm pass, since a missing map key reads as false |
| Csr.MessageRoundTrip | csr/csr.go:36-68 | `Message` gives each error its Go text (`%d` printed in decimal, the refused names joined by ", "), and every such text reads back to the error it came from, provided a policy refusal lists at least one name and none holds a comma |
| Csr.MessageInjective | csr/csr.go:36-68 | two errors with the same text are the same error (under the same proviso for policy refusals) |
| Csr.FixedTextsRoundTrip | csr/csr.go:36-53 | the fixed texts (key missing, unsupported algorithm, invalid signature, no names, common name over 64 bytes) read back to their errors |
| Csr.KeyReasonRoundTrip | csr/csr.go:38-40 | an invalid-key text carrying the key policy's reason reads back to that exact reason |
| Csr.TooManyNamesRoundTrip | csr/csr.go:55-57 | a too-many-names text reads back to the limit it was raised for |
| Csr.PolicyRoundTrip | csr/csr.go:67-69 | a policy refusal's text gives back exactly the refused names, in order, when there is at least one and none holds a comma |
| Csr.DeniedNames | csr/csr.go:58-66 | the refused names are never more than the names asked about |
| Csr.DeniedNamesMembers | csr/csr.go:58-66 | a name is in the refused list exactly when it is one of the DNS names and the policy is unwilling to issue for it |
| Csr.DeniedNamesAppend | csr/csr.go:58-66 | refusals keep the input order: the refusals of a concatenation are those of the first part followed by those of the second |
| Csr.DeniedNamesEmpty | csr/csr.go:67-69 | nothing is refused exactly when the policy is willing for every name |
| Csr.PolicyQueries | csr/csr.go:58-63 | the policy step asks one question per DNS name, the k-th about the k-th name, with the account's registration ID |
| Csr.CollectDeniedNames | csr/csr.go:58-66 | the loop returns exactly the refused names in input order, and the policy authority's log grows by one question per name, in order |
| Csr.FirstFailureIsFirst | csr/csr.go:33-70 | the first failure of a check list is none exactly when every check passes; otherwise it is the error of a failing check that all earlier checks passed |
| Csr.FirstFailureOfCheckOrder | csr/csr.go:33-70 | the checks run in the order key present, key strength, algorithm, signature, names present, common-name length, name count, policy, each only if all before it passed |
| Csr.VerdictIsFirstFailure | csr/csr.go:33-70 | `VerifyCSR`'s answer is the error of the first check, in that order, that fails |
| Csr.AcceptedIffAllChecksPass | csr/csr.go:33-70 | a request is accepted (nil error) exactly when it passes every check |
| Csr.KeyCheckedFirst | csr/csr.go:34-40 | a missing key gives the plain invalid-key error and a key the policy rejects gives the invalid-key error carrying the policy's reason, whatever else is wrong; an invalid-key error arises in no other case |
| Csr.AlgorithmDenylist | csr/csr.go:41-45 | once the key is good, the request is refused as unsupported exactly when its algorithm is on the denylist |
| Csr.SignatureChecked | csr/csr.go:46-48 | once the key is good and the algorithm allowed, the request is refused for an invalid signature exactly when the signature over the request does not verify with its key |
| Csr.NamesRequired | csr/csr.go:49-51 | once key and signature are good, the request is refused for lack of names exactly when both the DNS names and the common name are empty |
| Csr.CommonNameBound | csr/csr.go:52-54 | once the earlier checks pass, the common name is refused exactly when its UTF-8 encoding exceeds 64 bytes; for an ASCII name, 64 characters pass and 65 do not |
| Csr.NameCountBound | csr/csr.go:55-57 | a limit of zero or less never refuses; a positive limit refuses exactly when there are more names than the limit, so exactly as many pass |
| Csr.PolicyDecides | csr/csr.go:58-70 | once the earlier checks pass, the request is accepted exactly when the policy is willing for every name, and otherwise refused with exactly the refused names |
| Csr.VerifyCSR | csr/csr.go:33-71 | returns the verdict of the checks above, and puts every DNS name to the policy authority, in order, exactly when the checks before the policy step pass (otherwise it asks nothing) |
| Csr.NormalizeCSR | csr/csr.go:75-85 | changes only the common name and the DNS names, to the hoisted or appended, lower-cased and de-duplicated forms |
| Csr.NormalizedNamesContents | csr/csr.go:80-84 | the normalised DNS names are lower case and distinct, and as a set are the lower-cased original names plus the lower-cased common name when it was non-empty; forcing the common name from the DNS names does not change them |
| Csr.NormalizedCommonNameCases | csr/csr.go:76-83 | the normalised common name is lower case; it is the lower-cased first DNS name when forced into an empty common name with names present, and the lower-cased original common name otherwise |
| Csr.CommonNameListed | csr/csr.go:76-84 | a non-empty normalised common name is always one of the normalised DNS names |
| Csr.LowerSetOfLower | csr/csr.go:84 | lower-casing a list that is already lower case changes none of its names |
| Csr.NormalizeIdempotentNames | csr/csr.go:75-85 | normalising a second time leaves the same set of DNS names |
| Csr.NormalizeIdempotentCommonName | csr/csr.go:75-85 | normalising a second time leaves the same common name (outside the case listed below) |
| Core.PolicyAuthority.WillingToIssue | csr/csr.go:59-62 | answers with the authority's decision for the identifier and account, and records the question at the end of its log |
| Core.UniqueLowerNames | csr/csr.go:73-84 | every result name is lower case, no name occurs twice, and the set of result names is the set of lower-cased input names |
| Core.ElementsEmpty | csr/csr.go:84 | a list has no names exactly when it is empty |
| Core.ElementsAppend | csr/csr.go:81 | appending a name adds exactly that name to the set of names |
| Core.LowerSetAppend | csr/csr.go:81 | appending a name adds exactly its lower-cased form to the lower-cased set |
| Strings.ToLower | csr/csr.go:83 | keeps the length, yields a lower-case string, and maps every character through ASCII lower-casing |
| Strings.ToLowerOfLower | csr/csr.go:83 | a lower-case string is its own lower-cased form |
| Strings.ToLowerIdempotent | csr/csr.go:83 | lower-casing twice is lower-casing once |
| Strings.ToLowerEmpty | csr/csr.go:83 | the lower-cased form is empty exactly when the string is |
| Strings.Join | csr/csr.go:68 | joining no parts gives the empty string and joining one part gives that part |
| Strings.SplitJoin | csr/csr.go:68 | splitting a ", "-joined list gives back the parts when none holds a comma |
| Strings.RuneLen | csr/csr.go:52 | a character takes one to four bytes in UTF-8, one exactly when it is ASCII |
| Strings.ByteLen | csr/csr.go:52 | the UTF-8 length of a string lies between its character count and four times that |
| Strings.ByteLenAscii | csr/csr.go:52 | the UTF-8 length equals the character count exactly when the string is ASCII |
| Strings.ByteLenAppend | csr/csr.go:52 | the UTF-8 length of a concatenation is the sum of the lengths |
| Strconv.DigitChar | features/featureflag_string.go:13 | maps a digit value to the decimal character with that value |
| Strconv.FormatNat | features/featureflag_string.go:13 | a natural number prints as a non-empty string of decimal digits with no leading zero, "0" for zero |
| Strconv.FormatInt | features/featureflag_string.go:13 | an integer prints as a non-empty string that starts with '-' exactly when it is negative |
| Strconv.ParseFormatNat | features/featureflag_string.go:13 | reading back the digits of a natural number gives that number |
| Strconv.ParseFormatInt | features/featureflag_string.go:13 | reading back the decimal text of any integer gives that integer |
| Strconv.FormatIntInjective | features/featureflag_string.go:13 | different integers print differently |
| Features.PackedSlice | features/featureflag_string.go:7-9 | in a packed string, part k lies between the packed lengths of the first k and k + 1 parts |
| Features.NameIsPacked | features/featureflag_string.go:7 | `_FeatureFlag_name` is the 18 flag names packed in declaration order |
| Features.IndexIsOffsets | features/featureflag_string.go:9 | entry k of `_FeatureFlag_index` is the total length of the first k names, and the table has one entry more than there are flags |
| Features.IndexTableWellFormed | features/featureflag_string.go:9 | the offset table starts at 0, rises strictly, and ends at 284, the length of the packed name, so every flag has a non-empty name |
| Features.NameAt | features/featureflag_string.go:12-15 | for every value the guard lets through, both slice bounds are in range and ordered, and the slice is that flag's name |
| Features.String | features/featureflag_string.go:11-16 | a negative value or one of 18 or more prints as `FeatureFlag(<decimal>)`; a flag prints as its own name |
| Features.FirstAndLastNames | features/featureflag_string.go:7-15 | flag 0 prints as "unused" and flag 17 as "EnforceChallengeDisable" |
| Features.FlagNamesDistinct | features/featureflag_string.go:7-9 | no two flags share a name, and no name is empty or starts like the fallback text |
| Features.StringInjective | features/featureflag_string.go:11-16 | two values that print the same are equal, for flags and for the fallback alike |

## Left out

- Decoding X.509/DER and Go's type assertion on `PublicKey` are not modelled. A request carries `Option<PublicKey>`, which is `None` when the key cannot be extracted.
- `CheckSignature` is cryptographic verification. It is a function parameter (`SignatureCheck`) over the algorithm, the to-be-signed bytes, the signature and the key.
- The rules inside `KeyPolicy.GoodKey` are not modelled. It is a function parameter that accepts a key or gives a reason.
- `core/` is not part of this model, so the internals of `PolicyAuthority.WillingToIssue` (blocklists, CAA, rate limits, remote calls) are left out. The authority's answer is a fixed function of the identifier and the registration ID, so it cannot change between questions. Its errors are reduced to "unwilling".
- UniqueLowerNames: only its set-level promise is claimed (lower case, no duplicates, the same set as the lower-cased input). The order of its result is not part of the contract, because its source is not part of this model.
- NormalizeIdempotentNames: idempotence is stated for the set of names, not their order, for the same reason.
- NormalizeIdempotentCommonName: the lemma excludes one case. In that case the common name is empty, the common name is forced from the DNS names, and the first DNS name is empty. The first pass then leaves an empty common name next to a non-empty list. The second pass hoists whichever name `UniqueLowerNames` put first, and that order is not known.
- ToLower: lower-cases ASCII letters only. The Unicode case mappings of Go's `strings.ToLower` are not modelled.
- Go strings are byte strings. Here they are sequences of Unicode scalar values, and the 64-byte bound is measured on their UTF-8 encoding (`ByteLen`). Strings that are not valid UTF-8 are not modelled.
- `maxNames` and `regID` are unbounded integers, so the widths of Go's `int` and `int64` are not modelled. `FeatureFlag` is bounded to the 64-bit range.
- Error values are the datatype `CsrError`. `Message` gives each one's Go text, formatting `%d` with a decimal printer and `%s` by concatenation. Go's error wrapping and identity are not modelled.
- MessageRoundTrip: a policy refusal's text cannot be read back when it lists no names, or when a name holds a comma. Different name lists then give the same text, so the round trip and `MessageInjective` are stated for the other refusals only.
