/** internal/capability: the handles that authorise an operation. Signatures are ideal: one verifies
    under a public key exactly on the claims that were signed for it. */
module Capability {
  import opened Text
  import opened Contract
  import opened Crypto
  import opened Sorting

  datatype Owner = Owner(opaqueID: string, recordKey: Key, signingSeed: Key)

  datatype Claims = Claims(
    opaqueID: string,
    grantID: string,
    appendKey: Key,
    expiresUnix: Time,
    allowedTypes: seq<string>,
    allowedRoots: seq<string>)

  datatype Signature = Signature(publicKey: string, claims: Claims)
  datatype Executor = Executor(claims: Claims, signature: Signature)

  /** A handle as text: an owner's, an executor's, or anything else. */
  datatype Handle = OwnerHandle(owner: Owner) | ExecutorHandle(executor: Executor) | OtherText

  function ParseOwner(handle: Handle): Option<Owner> {
    match handle
    case OwnerHandle(owner) =>
      if owner.opaqueID == "" || owner.recordKey == 0 || owner.signingSeed == 0 then None else Some(owner)
    case _ => None
  }

  function ParseExecutor(handle: Handle, now: Time): Option<Executor> {
    match handle
    case ExecutorHandle(executor) =>
      var claims := executor.claims;
      if claims.opaqueID == "" || claims.grantID == "" || claims.appendKey == 0 || !(now < claims.expiresUnix) then None
      else Some(executor)
    case _ => None
  }

  const SECOND := 1_000_000_000

  /** A time cut to whole seconds, as claims carry it. */
  function WholeSeconds(t: Time): Time { t - t % SECOND }

  /** sortedUnique: the distinct non-empty values in order. */
  ghost function SortedUnique(values: seq<string>): seq<string> {
    Listing(set v | v in values && v != "")
  }

  method SortDistinct(values: seq<string>) returns (result: seq<string>)
    ensures result == SortedUnique(values)
  {
    result := [];
    var seen: set<string> := {};
    for n := 0 to |values|
      invariant seen == set v | v in values[..n] && v != ""
      invariant multiset(result) == multiset(seen)
    {
      var value := values[n];
      assert values[..n + 1] == values[..n] + [value];
      if value == "" || value in seen {
        continue;
      }
      seen := seen + {value};
      result := result + [value];
    }
    assert values[..|values|] == values;
    LexLePreorder();
    result := SortSlice(result, LexLe);
    ListingUnique(seen, result, SortedUnique(values));
  }

  /** executorAllows. */
  predicate ExecutorAllows(allowed: seq<string>, types: seq<EventType>) {
    allowed == [] || forall t :: t in types ==> TypeText(t) in allowed
  }

  /** What a delegated list of types allows: everything if it names no type at all, else what it names;
      repetitions and order do not matter. */
  lemma DelegatedTypes(values: seq<string>, types: seq<EventType>)
    ensures ExecutorAllows(SortedUnique(values), types)
            <==> (forall v :: v in values ==> v == "") || forall t :: t in types ==> TypeText(t) in values
  {
    var named := set v | v in values && v != "";
    ListingMembers(named, SortedUnique(values));
    assert SortedUnique(values) == [] <==> named == {};
    assert forall v :: v in values && v != "" ==> v in named;
    assert forall t :: TypeText(t) != "";
  }

  /** Executor.Verify. */
  predicate VerifySignature(executor: Executor, publicKey: string) {
    executor.signature == Signature(publicKey, executor.claims)
  }
}
