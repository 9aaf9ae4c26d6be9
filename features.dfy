/**
 * The `String` method that the `stringer` tool generates for `FeatureFlag`:
 * all flag names packed into one string, an offset table into it, and a
 * fallback text for values that are not flags.
 */
module Features {
  import Strconv

  /** Go's `int`, taken to be 64 bits wide. */
  newtype FeatureFlag = i: int | -0x8000_0000_0000_0000 <= i < 0x8000_0000_0000_0000

  newtype uint16 = x: int | 0 <= x < 0x1_0000

  /** The flag names in declaration order: flag `i` is called `FlagNames[i]`. */
  const FlagNames: seq<string> := [
    "unused",
    "AllowAccountDeactivation",
    "AllowKeyRollover",
    "ResubmitMissingSCTsOnly",
    "UseAIAIssuerURL",
    "AllowTLS02Challenges",
    "GenerateOCSPEarly",
    "ReusePendingAuthz",
    "CountCertificatesExact",
    "RandomDirectoryEntry",
    "IPv6First",
    "DirectoryMeta",
    "AllowRenewalFirstRL",
    "RecheckCAA",
    "UDPDNS",
    "ROCACheck",
    "WildcardDomains",
    "EnforceChallengeDisable"
  ]
  /**
   * `_FeatureFlag_name`: the 284 characters of the generated constant, written
   * as the concatenation of the flag names that it packs. Written as one
   * 284-character literal, the packing proof below runs out of resource.
   */
  const FeatureFlagName: string :=
    "unused" +
    "AllowAccountDeactivation" +
    "AllowKeyRollover" +
    "ResubmitMissingSCTsOnly" +
    "UseAIAIssuerURL" +
    "AllowTLS02Challenges" +
    "GenerateOCSPEarly" +
    "ReusePendingAuthz" +
    "CountCertificatesExact" +
    "RandomDirectoryEntry" +
    "IPv6First" +
    "DirectoryMeta" +
    "AllowRenewalFirstRL" +
    "RecheckCAA" +
    "UDPDNS" +
    "ROCACheck" +
    "WildcardDomains" +
    "EnforceChallengeDisable"
  /** `_FeatureFlag_index`: where each name starts, and where the last one ends. */
  const FeatureFlagIndex: seq<uint16> := [0, 6, 30, 46, 69, 84, 104, 121, 138, 160, 180, 189, 202, 221, 231, 237, 246, 261, 284]

  /** The first `n` parts, packed one after the other. */
  function Packed(parts: seq<string>, n: nat): string
    requires n <= |parts|
  {
    if n == 0 then "" else Packed(parts, n - 1) + parts[n - 1]
  }

  /** In a packed string, part `k` lies between the packed lengths of the first `k` and `k + 1` parts. */
  lemma {:induction false} PackedSlice(parts: seq<string>, n: nat, k: nat)
    requires k < n <= |parts|
    ensures |Packed(parts, k)| + |parts[k]| == |Packed(parts, k + 1)| <= |Packed(parts, n)|
    ensures Packed(parts, n)[|Packed(parts, k)|..|Packed(parts, k + 1)|] == parts[k]
  {
    if k + 1 < n {
      PackedSlice(parts, n - 1, k);
    }
  }

  /** The names, one by one. */
  lemma FlagNamesAre()
    ensures |FlagNames| == 18
    ensures FlagNames[0] == "unused"
    ensures FlagNames[1] == "AllowAccountDeactivation"
    ensures FlagNames[2] == "AllowKeyRollover"
    ensures FlagNames[3] == "ResubmitMissingSCTsOnly"
    ensures FlagNames[4] == "UseAIAIssuerURL"
    ensures FlagNames[5] == "AllowTLS02Challenges"
    ensures FlagNames[6] == "GenerateOCSPEarly"
    ensures FlagNames[7] == "ReusePendingAuthz"
    ensures FlagNames[8] == "CountCertificatesExact"
    ensures FlagNames[9] == "RandomDirectoryEntry"
    ensures FlagNames[10] == "IPv6First"
    ensures FlagNames[11] == "DirectoryMeta"
    ensures FlagNames[12] == "AllowRenewalFirstRL"
    ensures FlagNames[13] == "RecheckCAA"
    ensures FlagNames[14] == "UDPDNS"
    ensures FlagNames[15] == "ROCACheck"
    ensures FlagNames[16] == "WildcardDomains"
    ensures FlagNames[17] == "EnforceChallengeDisable"
  {
  }

  /** `_FeatureFlag_name` is the names packed in declaration order. */
  lemma NameIsPacked()
    ensures |FlagNames| == 18 && FeatureFlagName == Packed(FlagNames, 18)
  {
    FlagNamesAre();
    assert Packed(FlagNames, 1) == "unused";
    assert Packed(FlagNames, 2) == "unused" + "AllowAccountDeactivation";
    assert Packed(FlagNames, 3) == "unused" + "AllowAccountDeactivation" + "AllowKeyRollover";
    assert Packed(FlagNames, 4) == "unused" + "AllowAccountDeactivation" + "AllowKeyRollover" + "ResubmitMissingSCTsOnly";
    assert Packed(FlagNames, 5) == "unused" + "AllowAccountDeactivation" + "AllowKeyRollover" + "ResubmitMissingSCTsOnly" + "UseAIAIssuerURL";
    assert Packed(FlagNames, 6) == "unused" + "AllowAccountDeactivation" + "AllowKeyRollover" + "ResubmitMissingSCTsOnly" + "UseAIAIssuerURL" + "AllowTLS02Challenges";
    assert Packed(FlagNames, 7) == "unused" + "AllowAccountDeactivation" + "AllowKeyRollover" + "ResubmitMissingSCTsOnly" + "UseAIAIssuerURL" + "AllowTLS02Challenges" + "GenerateOCSPEarly";
    assert Packed(FlagNames, 8) == "unused" + "AllowAccountDeactivation" + "AllowKeyRollover" + "ResubmitMissingSCTsOnly" + "UseAIAIssuerURL" + "AllowTLS02Challenges" + "GenerateOCSPEarly" + "ReusePendingAuthz";
    assert Packed(FlagNames, 9) == "unused" + "AllowAccountDeactivation" + "AllowKeyRollover" + "ResubmitMissingSCTsOnly" + "UseAIAIssuerURL" + "AllowTLS02Challenges" + "GenerateOCSPEarly" + "ReusePendingAuthz" + "CountCertificatesExact";
    assert Packed(FlagNames, 10) == "unused" + "AllowAccountDeactivation" + "AllowKeyRollover" + "ResubmitMissingSCTsOnly" + "UseAIAIssuerURL" + "AllowTLS02Challenges" + "GenerateOCSPEarly" + "ReusePendingAuthz" + "CountCertificatesExact" + "RandomDirectoryEntry";
    assert Packed(FlagNames, 11) == "unused" + "AllowAccountDeactivation" + "AllowKeyRollover" + "ResubmitMissingSCTsOnly" + "UseAIAIssuerURL" + "AllowTLS02Challenges" + "GenerateOCSPEarly" + "ReusePendingAuthz" + "CountCertificatesExact" + "RandomDirectoryEntry" + "IPv6First";
    assert Packed(FlagNames, 12) == "unused" + "AllowAccountDeactivation" + "AllowKeyRollover" + "ResubmitMissingSCTsOnly" + "UseAIAIssuerURL" + "AllowTLS02Challenges" + "GenerateOCSPEarly" + "ReusePendingAuthz" + "CountCertificatesExact" + "RandomDirectoryEntry" + "IPv6First" + "DirectoryMeta";
    assert Packed(FlagNames, 13) == "unused" + "AllowAccountDeactivation" + "AllowKeyRollover" + "ResubmitMissingSCTsOnly" + "UseAIAIssuerURL" + "AllowTLS02Challenges" + "GenerateOCSPEarly" + "ReusePendingAuthz" + "CountCertificatesExact" + "RandomDirectoryEntry" + "IPv6First" + "DirectoryMeta" + "AllowRenewalFirstRL";
    assert Packed(FlagNames, 14) == "unused" + "AllowAccountDeactivation" + "AllowKeyRollover" + "ResubmitMissingSCTsOnly" + "UseAIAIssuerURL" + "AllowTLS02Challenges" + "GenerateOCSPEarly" + "ReusePendingAuthz" + "CountCertificatesExact" + "RandomDirectoryEntry" + "IPv6First" + "DirectoryMeta" + "AllowRenewalFirstRL" + "RecheckCAA";
    assert Packed(FlagNames, 15) == "unused" + "AllowAccountDeactivation" + "AllowKeyRollover" + "ResubmitMissingSCTsOnly" + "UseAIAIssuerURL" + "AllowTLS02Challenges" + "GenerateOCSPEarly" + "ReusePendingAuthz" + "CountCertificatesExact" + "RandomDirectoryEntry" + "IPv6First" + "DirectoryMeta" + "AllowRenewalFirstRL" + "RecheckCAA" + "UDPDNS";
    assert Packed(FlagNames, 16) == "unused" + "AllowAccountDeactivation" + "AllowKeyRollover" + "ResubmitMissingSCTsOnly" + "UseAIAIssuerURL" + "AllowTLS02Challenges" + "GenerateOCSPEarly" + "ReusePendingAuthz" + "CountCertificatesExact" + "RandomDirectoryEntry" + "IPv6First" + "DirectoryMeta" + "AllowRenewalFirstRL" + "RecheckCAA" + "UDPDNS" + "ROCACheck";
    assert Packed(FlagNames, 17) == "unused" + "AllowAccountDeactivation" + "AllowKeyRollover" + "ResubmitMissingSCTsOnly" + "UseAIAIssuerURL" + "AllowTLS02Challenges" + "GenerateOCSPEarly" + "ReusePendingAuthz" + "CountCertificatesExact" + "RandomDirectoryEntry" + "IPv6First" + "DirectoryMeta" + "AllowRenewalFirstRL" + "RecheckCAA" + "UDPDNS" + "ROCACheck" + "WildcardDomains";
    assert Packed(FlagNames, 18) == "unused" + "AllowAccountDeactivation" + "AllowKeyRollover" + "ResubmitMissingSCTsOnly" + "UseAIAIssuerURL" + "AllowTLS02Challenges" + "GenerateOCSPEarly" + "ReusePendingAuthz" + "CountCertificatesExact" + "RandomDirectoryEntry" + "IPv6First" + "DirectoryMeta" + "AllowRenewalFirstRL" + "RecheckCAA" + "UDPDNS" + "ROCACheck" + "WildcardDomains" + "EnforceChallengeDisable";
  }

  /** The offset table is the running total of the name lengths. */
  lemma {:induction false} IndexIsOffsets(k: nat)
    requires k <= |FlagNames|
    ensures |FeatureFlagIndex| == |FlagNames| + 1
    ensures FeatureFlagIndex[k] as int == |Packed(FlagNames, k)|
  {
    assert |FlagNames| == 18 && |FeatureFlagIndex| == 19;
    assert forall j :: 0 <= j < 18 ==> FeatureFlagIndex[j + 1] as int - FeatureFlagIndex[j] as int == |FlagNames[j]|;
    if k > 0 {
      IndexIsOffsets(k - 1);
    }
  }

  /**
   * The offset table is well formed: it starts at 0, rises strictly, and ends
   * at the length of the packed string; so every flag has a non-empty name.
   */
  lemma IndexTableWellFormed()
    ensures |FeatureFlagIndex| == |FlagNames| + 1 && FeatureFlagIndex[0] == 0
    ensures forall k :: 0 <= k < |FlagNames| ==> FeatureFlagIndex[k] < FeatureFlagIndex[k + 1]
    ensures FeatureFlagIndex[|FlagNames|] as int == |FeatureFlagName| == 284
  {
  }

  /** For an in-range flag, the slice that `String` takes is in bounds and is that flag's name. */
  lemma NameAt(i: nat)
    requires i < |FeatureFlagIndex| - 1
    ensures i < |FlagNames|
    ensures FeatureFlagIndex[i] <= FeatureFlagIndex[i + 1] && FeatureFlagIndex[i + 1] as int <= |FeatureFlagName|
    ensures FeatureFlagName[FeatureFlagIndex[i]..FeatureFlagIndex[i + 1]] == FlagNames[i]
  {
    NameIsPacked();
    IndexIsOffsets(i);
    IndexIsOffsets(i + 1);
    IndexIsOffsets(|FlagNames|);
    PackedSlice(FlagNames, |FlagNames|, i);
  }

  /** The text printed for a value that names no flag. */
  function Fallback(i: FeatureFlag): string {
    "FeatureFlag(" + Strconv.FormatInt(i as int) + ")"
  }

  /** `FeatureFlag.String`. */
  function String(i: FeatureFlag): (s: string)
    ensures i < 0 || i as int >= |FlagNames| ==> s == Fallback(i)
    ensures 0 <= i as int < |FlagNames| ==> s == FlagNames[i]
  {
    if i < 0 || i >= (|FeatureFlagIndex| - 1) as FeatureFlag then
      Fallback(i)
    else
      NameAt(i as nat);
      FeatureFlagName[FeatureFlagIndex[i]..FeatureFlagIndex[i + 1]]
  }

  lemma FirstAndLastNames()
    ensures String(0) == "unused"
    ensures String(17) == "EnforceChallengeDisable"
  {
  }

  /** No two flags share a name, and no name looks like the fallback text. */
  lemma FlagNamesDistinct()
    ensures forall i, j :: 0 <= i < j < |FlagNames| ==> FlagNames[i] != FlagNames[j]
    ensures forall k :: 0 <= k < |FlagNames| ==> FlagNames[k] != [] && FlagNames[k][0] != 'F'
  {
  }

  /** Different values never print the same: flags by name, all other values by number. */
  lemma StringInjective(i: FeatureFlag, j: FeatureFlag)
    requires String(i) == String(j)
    ensures i == j
  {
    FlagNamesDistinct();
    if !(0 <= i as int < |FlagNames|) && !(0 <= j as int < |FlagNames|) {
      var a, b := Strconv.FormatInt(i as int), Strconv.FormatInt(j as int);
      assert a == Fallback(i)[12..|Fallback(i)| - 1];
      assert b == Fallback(j)[12..|Fallback(j)| - 1];
      Strconv.FormatIntInjective(i as int, j as int);
    }
  }
}
