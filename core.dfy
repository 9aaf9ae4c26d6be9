/**
 * The collaborators of the CSR checks, seen only through their interfaces:
 * the key-strength policy, the issuance policy authority, identifiers, and
 * `UniqueLowerNames`, of which only what its name promises is relied on.
 */
module Core {
  import opened Wrappers
  import opened Strings

  /** The public key carried by a request, as its encoded bytes. */
  datatype PublicKey = PublicKey(encoded: seq<bv8>)

  /**
   * `KeyPolicy.GoodKey`: `None` accepts the key, `Some(reason)` rejects it and
   * says why. Its rules (RSA moduli, curves, blocked keys) are not modelled.
   */
  type KeyPolicy = PublicKey -> Option<string>

  datatype IdentifierType = DNS

  datatype AcmeIdentifier = AcmeIdentifier(identifierType: IdentifierType, value: string)

  /** The decision a policy authority takes for one identifier and one account. */
  type IssuanceDecision = (AcmeIdentifier, int) -> bool

  /**
   * A policy authority. Its decision procedure is fixed; the ghost log
   * records every question asked of it, in order, so that callers can state
   * which identifiers they looked up.
   */
  class PolicyAuthority {
    const willing: IssuanceDecision
    ghost var queries: seq<(AcmeIdentifier, int)>

    constructor (willing: IssuanceDecision)
      ensures this.willing == willing && queries == []
    {
      this.willing := willing;
      queries := [];
    }

    /** `WillingToIssue`: `true` where the Go method returns a nil error. */
    method WillingToIssue(id: AcmeIdentifier, regID: int) returns (ok: bool)
      modifies this`queries
      ensures ok == willing(id, regID)
      ensures queries == old(queries) + [(id, regID)]
    {
      queries := queries + [(id, regID)];
      ok := willing(id, regID);
    }
  }

  predicate NoDuplicates(names: seq<string>) {
    forall i, j :: 0 <= i < j < |names| ==> names[i] != names[j]
  }

  predicate AllLower(names: seq<string>) {
    forall k :: 0 <= k < |names| ==> IsLower(names[k])
  }

  /** The names of a list, as a set. */
  function Elements(names: seq<string>): set<string> {
    set k | 0 <= k < |names| :: names[k]
  }

  /** The set of the lower-cased names. */
  function LowerSet(names: seq<string>): set<string> {
    set k | 0 <= k < |names| :: ToLower(names[k])
  }

  /** Only the empty list has no names. */
  lemma ElementsEmpty(names: seq<string>)
    ensures Elements(names) == {} <==> names == []
  {
    if names != [] {
      assert names[0] in Elements(names);
    }
  }

  lemma ElementsAppend(names: seq<string>, name: string)
    ensures Elements(names + [name]) == Elements(names) + {name}
  {
    var all := names + [name];
    forall x | x in Elements(all) ensures x in Elements(names) + {name} {
      var k :| 0 <= k < |all| && all[k] == x;
      if k < |names| { assert all[k] == names[k]; }
    }
    forall x | x in Elements(names) ensures x in Elements(all) {
      var k :| 0 <= k < |names| && names[k] == x;
      assert all[k] == names[k];
    }
    assert all[|names|] == name;
  }

  lemma LowerSetAppend(names: seq<string>, name: string)
    ensures LowerSet(names + [name]) == LowerSet(names) + {ToLower(name)}
  {
    var all := names + [name];
    forall x | x in LowerSet(all) ensures x in LowerSet(names) + {ToLower(name)} {
      var k :| 0 <= k < |all| && ToLower(all[k]) == x;
      if k < |names| { assert all[k] == names[k]; }
    }
    forall x | x in LowerSet(names) ensures x in LowerSet(all) {
      var k :| 0 <= k < |names| && ToLower(names[k]) == x;
      assert all[k] == names[k];
    }
    assert all[|names|] == name;
  }

  /**
   * `core.UniqueLowerNames`: the names lower-cased, each once. Only the
   * contract is claimed; the order this body happens to produce is not.
   */
  function UniqueLowerNames(names: seq<string>): (unique: seq<string>)
    ensures AllLower(unique) && NoDuplicates(unique)
    ensures Elements(unique) == LowerSet(names)
  {
    if names == [] then []
    else
      var init, last := names[..|names| - 1], ToLower(names[|names| - 1]);
      var rest := UniqueLowerNames(init);
      LowerSetAppend(init, names[|names| - 1]);
      assert names == init + [names[|names| - 1]];
      if last in rest then rest
      else
        var r := rest + [last];
        ElementsAppend(rest, last);
        r
  }
}
