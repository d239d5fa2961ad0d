/**
 The on-chain side: recomputing the leaf of a managed call, checking its proof against the stored
 root, and what it means that a call got through.
 */
module PolicyVerifier {
  import opened Arithmetic
  import opened Wrappers
  import opened Bytes
  import opened PolicyLeaf
  import opened PolicyTree

  datatype ProgramError =
    | InvalidVault
    | InvalidStrategyPolicy
    | StrategyPolicyPaused
    | EmptyMerkleRoot
    | ReentrantStrategyCall
    | StaleStrategyPolicyVersion
    | InvalidVenueInstruction
    | InstructionDataTooLarge
    | TooManyCpiAccounts
    | InvalidPolicyOperator
    | PolicyOperatorOutOfBounds
    | PolicyIngestionLimitExceeded
    | DuplicateManagerLimitOperator
    | MerkleProofTooDeep
    | MerkleProofInvalid

  /** The program's name for each reason the client refuses a leaf. */
  function ProgramErrorFor(e: HashError, dataLength: nat): ProgramError
  {
    match e
    case InvalidInstructionData => if dataLength < 8 then InvalidVenueInstruction else InstructionDataTooLarge
    case TooManyAccounts => TooManyCpiAccounts
    case TooManyOperators => InvalidPolicyOperator
    case EmptyInstructionRange => InvalidPolicyOperator
    case OperatorOutOfBounds => PolicyOperatorOutOfBounds
    case IngestionLimitExceeded => PolicyIngestionLimitExceeded
    case DuplicateManagerLimitAmount => DuplicateManagerLimitOperator
  }

  // ---- The dynamic amount ----

  /** The little-endian u64 that the limit operator among `ops`, if any, points at. */
  function LimitAmount(ops: seq<Operator>, data: ByteSeq): (r: Option<nat>)
    requires forall i :: 0 <= i < |ops| && ops[i].ManagerLimitAmount? ==> ops[i].limitOffset + 8 <= |data|
    ensures r.Some? <==> HasLimit(ops)
  {
    if ops == [] then None
    else
      var last := ops[|ops| - 1];
      if last.ManagerLimitAmount? then Some(LittleEndianValue(data[last.limitOffset..last.limitOffset + 8]))
      else
        assert ops == ops[..|ops| - 1] + [last];
        LimitAmount(ops[..|ops| - 1], data)
  }

  lemma {:induction false} LimitAmountAt(ops: seq<Operator>, data: ByteSeq, k: nat)
    requires k < |ops| && ops[k].ManagerLimitAmount? && AtMostOneLimit(ops)
    requires forall i :: 0 <= i < |ops| && ops[i].ManagerLimitAmount? ==> ops[i].limitOffset + 8 <= |data|
    ensures LimitAmount(ops, data) == Some(LittleEndianValue(data[ops[k].limitOffset..ops[k].limitOffset + 8]))
  {
    if k < |ops| - 1 {
      LimitAmountAt(ops[..|ops| - 1], data, k);
    }
  }

  // ---- Recomputing the leaf ----

  method EncodeOperator(input: Leaf, k: nat, managerLimitAmount: Option<nat>, ingestedInstructionBytes: nat)
    returns (r: Result<ByteSeq, ProgramError>, managerLimitAmount': Option<nat>, ingestedInstructionBytes': nat)
    requires k < |input.operators| && Clean(input, k)
    requires managerLimitAmount == LimitAmount(input.operators[..k], input.data)
    requires ingestedInstructionBytes == IngestedBytes(input.operators[..k])
    ensures var e := OperatorError(input.operators[..k], input.operators[k], input.data, input.accounts);
            && (e.Some? ==> r == Err(ProgramErrorFor(e.value, |input.data|)))
            && (e.None? ==>
                && InBounds(input.operators[k], input.data, input.accounts)
                && r == Ok(EncodeItem(CommitOperator(input.operators[k], input.data, input.accounts))))
    ensures r.Ok? ==> Clean(input, k + 1)
    ensures r.Ok? ==> managerLimitAmount' == LimitAmount(input.operators[..k + 1], input.data)
    ensures r.Ok? ==> ingestedInstructionBytes' == IngestedBytes(input.operators[..k + 1])
  {
    var op := input.operators[k];
    ghost var before := input.operators[..k];
    assert input.operators[..k + 1][..k] == before;
    managerLimitAmount' := managerLimitAmount;
    ingestedInstructionBytes' := ingestedInstructionBytes;
    match op {
      case IngestInstruction(offset, length) =>
        if !(length > 0) {
          r := Err(InvalidPolicyOperator);
          return;
        }
        var to := offset + length;
        if to > |input.data| {
          r := Err(PolicyOperatorOutOfBounds);
          return;
        }
        var selected := input.data[offset..to];
        ingestedInstructionBytes' := ingestedInstructionBytes + |selected|;
        if !(ingestedInstructionBytes' <= MAX_INGESTED_INSTRUCTION_BYTES) {
          r := Err(PolicyIngestionLimitExceeded);
          return;
        }
        r := Ok([0] + LittleEndian(offset, 2) + LittleEndian(length, 2) + selected);
      case IngestAccount(index) =>
        if index >= |input.accounts| {
          r := Err(PolicyOperatorOutOfBounds);
          return;
        }
        var account := input.accounts[index];
        r := Ok([1, index] + account.address + [Flag(account.isSigner), Flag(account.isWritable)]);
      case ManagerLimitAmount(offset) =>
        if !managerLimitAmount.None? {
          r := Err(DuplicateManagerLimitOperator);
          return;
        }
        var to := offset + 8;
        if to > |input.data| {
          r := Err(PolicyOperatorOutOfBounds);
          return;
        }
        var raw := input.data[offset..to];
        r := Ok([2] + LittleEndian(offset, 2));
        managerLimitAmount' := Some(LittleEndianValue(raw));
    }
    CleanNext(input, k);
  }

  method EncodeOperators(input: Leaf) returns (r: Result<ByteSeq, ProgramError>, managerLimitAmount: Option<nat>)
    ensures var e := OperatorsError(input.operators, input.data, input.accounts);
            && (e.Some? ==> r == Err(ProgramErrorFor(e.value, |input.data|)))
            && (e.None? ==>
                && Clean(input, |input.operators|)
                && r == Ok(OperatorBytes(input, |input.operators|))
                && managerLimitAmount == LimitAmount(input.operators, input.data))
  {
    var bytes: ByteSeq := [];
    var ingestedInstructionBytes := 0;
    managerLimitAmount := None;
    for i := 0 to |input.operators|
      invariant Clean(input, i)
      invariant bytes == OperatorBytes(input, i)
      invariant managerLimitAmount == LimitAmount(input.operators[..i], input.data)
      invariant ingestedInstructionBytes == IngestedBytes(input.operators[..i])
    {
      ghost var e := OperatorError(input.operators[..i], input.operators[i], input.data, input.accounts);
      var encoded;
      encoded, managerLimitAmount, ingestedInstructionBytes :=
        EncodeOperator(input, i, managerLimitAmount, ingestedInstructionBytes);
      if encoded.Err? {
        CleanStops(input, i, e.value);
        r := Err(encoded.error);
        return;
      }
      bytes := bytes + encoded.value;
    }
    assert input.operators[..|input.operators|] == input.operators;
    r := Ok(bytes);
  }

  /** Recomputes the leaf digest of a call and reads the amount its limit operator points at. */
  method HashStrategyLeaf(h: Hasher, input: Leaf) returns (r: Result<(Digest, Option<nat>), ProgramError>)
    ensures Accepted(input) ==> r == Ok((h(Preimage(input)), LimitAmount(input.operators, input.data)))
    ensures !Accepted(input) ==>
              Refusal(input).Some? && r == Err(ProgramErrorFor(Refusal(input).value, |input.data|))
  {
    RefusedIffNotAccepted(input);
    if !(|input.data| >= 8) {
      return Err(InvalidVenueInstruction);
    }
    if !(|input.data| <= MAX_INSTRUCTION_DATA_LEN) {
      return Err(InstructionDataTooLarge);
    }
    if !(|input.accounts| <= MAX_CPI_ACCOUNTS) {
      return Err(TooManyCpiAccounts);
    }
    if !(|input.operators| <= MAX_POLICY_OPERATORS) {
      return Err(InvalidPolicyOperator);
    }
    var encoded, managerLimitAmount := EncodeOperators(input);
    if encoded.Err? {
      return Err(encoded.error);
    }
    CleanFinished(input);
    return Ok((h(LeafHeader(input) + encoded.value), managerLimitAmount));
  }

  /** Folds the proof from the leaf and compares with the stored root. */
  method VerifyStrategyProof(h: Hasher, leaf: Digest, proof: seq<Digest>, root: Digest) returns (r: Result<(), ProgramError>)
    ensures |proof| > MAX_MERKLE_PROOF_DEPTH ==> r == Err(MerkleProofTooDeep)
    ensures |proof| <= MAX_MERKLE_PROOF_DEPTH ==>
              r == if Fold(h, leaf, proof) == root then Ok(()) else Err(MerkleProofInvalid)
  {
    if !(|proof| <= MAX_MERKLE_PROOF_DEPTH) {
      return Err(MerkleProofTooDeep);
    }
    var computed := leaf;
    for k := 0 to |proof|
      invariant Fold(h, computed, proof[k..]) == Fold(h, leaf, proof)
    {
      assert proof[k..] == [proof[k]] + proof[k + 1..];
      FoldStep(h, computed, proof[k], proof[k + 1..]);
      computed := NodeHash(h, computed, proof[k]);
    }
    assert proof[|proof|..] == [];
    return if computed == root then Ok(()) else Err(MerkleProofInvalid);
  }

  // ---- Authorizing a managed call ----

  datatype StrategyPolicy = StrategyPolicy(
    vault: Address,
    strategist: Address,
    merkleRoot: Digest,
    version: U64,
    paused: bool,
    executing: bool)

  /** The root of a policy that has not been given one yet. */
  predicate IsZeroRoot(root: Digest)
  {
    forall i :: 0 <= i < |root| ==> root[i] == 0
  }

  /** What the strategist submits; the account list carries the outer transaction's privileges. */
  datatype ManagedCall = ManagedCall(
    vault: Address,
    strategist: Address,
    target: Address,
    policyVersion: U64,
    data: ByteSeq,
    operators: seq<Operator>,
    accounts: seq<AccountMeta>)

  /** The leaf the program hashes for a call, with the privileges the venue will receive. */
  function LeafOf(programId: Address, call: ManagedCall): Leaf
  {
    Leaf(programId, call.vault, call.strategist, call.policyVersion, call.target, call.data,
         Normalize(call.vault, call.accounts), call.operators)
  }

  ghost predicate PolicyApplies(policy: StrategyPolicy, call: ManagedCall)
  {
    && policy.vault == call.vault
    && policy.strategist == call.strategist
    && !policy.paused
    && !IsZeroRoot(policy.merkleRoot)
    && !policy.executing
    && call.policyVersion == policy.version
  }

  /** The first reason, in the program's order, why a policy does not apply. */
  ghost function PolicyRefusal(policy: StrategyPolicy, call: ManagedCall): (e: Option<ProgramError>)
    ensures e.None? <==> PolicyApplies(policy, call)
  {
    if policy.vault != call.vault then Some(InvalidVault)
    else if policy.strategist != call.strategist then Some(InvalidStrategyPolicy)
    else if policy.paused then Some(StrategyPolicyPaused)
    else if IsZeroRoot(policy.merkleRoot) then Some(EmptyMerkleRoot)
    else if policy.executing then Some(ReentrantStrategyCall)
    else if call.policyVersion != policy.version then Some(StaleStrategyPolicyVersion)
    else None
  }

  /**
   The first reason why a call is refused before its proof is looked at: the handler checks the sizes
   of the data and of the account list itself, ahead of the leaf.
   */
  ghost function CallRefusal(programId: Address, policy: StrategyPolicy, call: ManagedCall): (e: Option<ProgramError>)
    ensures e.None? <==> PolicyApplies(policy, call) && Accepted(LeafOf(programId, call))
  {
    RefusedIffNotAccepted(LeafOf(programId, call));
    if PolicyRefusal(policy, call).Some? then PolicyRefusal(policy, call)
    else if |call.data| > MAX_INSTRUCTION_DATA_LEN then Some(InstructionDataTooLarge)
    else if |call.accounts| > MAX_CPI_ACCOUNTS then Some(TooManyCpiAccounts)
    else
      match Refusal(LeafOf(programId, call))
      case None => None
      case Some(reason) => Some(ProgramErrorFor(reason, |call.data|))
  }

  ghost predicate Authorized(h: Hasher, programId: Address, policy: StrategyPolicy, call: ManagedCall, proof: seq<Digest>)
  {
    var leaf := LeafOf(programId, call);
    && PolicyApplies(policy, call)
    && Accepted(leaf)
    && |proof| <= MAX_MERKLE_PROOF_DEPTH
    && Fold(h, h(Preimage(leaf)), proof) == policy.merkleRoot
  }

  /** The policy part of the managed-call handler, up to the point where the rolling limit is charged. */
  method AuthorizeManagedCall(h: Hasher, programId: Address, policy: StrategyPolicy, call: ManagedCall, proof: seq<Digest>)
    returns (r: Result<(Digest, Option<nat>), ProgramError>)
    ensures r.Ok? <==> Authorized(h, programId, policy, call, proof)
    ensures r.Ok? ==> r.value.0 == h(Preimage(LeafOf(programId, call)))
    ensures r.Ok? ==> r.value.1 == LimitAmount(call.operators, call.data)
    ensures CallRefusal(programId, policy, call).Some? ==> r == Err(CallRefusal(programId, policy, call).value)
    ensures CallRefusal(programId, policy, call).None? && r.Err? ==>
              r.error == if |proof| > MAX_MERKLE_PROOF_DEPTH then MerkleProofTooDeep else MerkleProofInvalid
  {
    if policy.vault != call.vault {
      return Err(InvalidVault);
    }
    if policy.strategist != call.strategist {
      return Err(InvalidStrategyPolicy);
    }
    if policy.paused {
      return Err(StrategyPolicyPaused);
    }
    if IsZeroRoot(policy.merkleRoot) {
      return Err(EmptyMerkleRoot);
    }
    if policy.executing {
      return Err(ReentrantStrategyCall);
    }
    if call.policyVersion != policy.version {
      return Err(StaleStrategyPolicyVersion);
    }
    if !(|call.data| <= MAX_INSTRUCTION_DATA_LEN) {
      return Err(InstructionDataTooLarge);
    }
    if !(|call.accounts| <= MAX_CPI_ACCOUNTS) {
      return Err(TooManyCpiAccounts);
    }
    var hashed := HashStrategyLeaf(h, LeafOf(programId, call));
    if hashed.Err? {
      return Err(hashed.error);
    }
    var checked := VerifyStrategyProof(h, hashed.value.0, proof, policy.merkleRoot);
    if checked.Err? {
      return Err(checked.error);
    }
    return Ok(hashed.value);
  }

  // ---- What authorization means ----

  ghost predicate Capabilities(caps: seq<Leaf>)
  {
    && 0 < |caps| <= MAX_POLICY_LEAVES
    && forall i :: 0 <= i < |caps| ==> Accepted(caps[i])
  }

  ghost function Preimages(caps: seq<Leaf>): (r: seq<ByteSeq>)
    requires Capabilities(caps)
    ensures |r| == |caps| && forall i :: 0 <= i < |r| ==> r[i] == Preimage(caps[i])
    ensures LeafStrings(r)
  {
    seq<ByteSeq>(|caps|, (i: nat) requires i < |caps| => Preimage(caps[i]))
  }

  /** The root the client compiles from a list of capabilities. */
  ghost function CompiledRoot(h: Hasher, caps: seq<Leaf>): Digest
    requires Capabilities(caps)
  {
    TreeOf(h, Digests(h, Preimages(caps))).root
  }

  /**
   Only granted calls get through: whatever proof is offered, an authorized call agrees with one of
   the capabilities on every committed field, or two of the strings hashed in compiling the tree
   and checking this proof have one digest.
   */
  lemma AuthorizedOnlyIfGranted(h: Hasher, programId: Address, policy: StrategyPolicy, caps: seq<Leaf>,
                                call: ManagedCall, proof: seq<Digest>)
    requires Capabilities(caps) && policy.merkleRoot == CompiledRoot(h, caps)
    requires Authorized(h, programId, policy, call, proof)
    ensures || (exists i :: 0 <= i < |caps| && SameCommittedFields(caps[i], LeafOf(programId, call)))
            || CollisionIn(h, HashedStrings(h, Preimages(caps), Preimage(LeafOf(programId, call)), proof))
  {
    var leaf := LeafOf(programId, call);
    ProofSound(h, Preimages(caps), Preimage(leaf), proof);
    if Preimage(leaf) in Preimages(caps) {
      var i :| 0 <= i < |caps| && Preimages(caps)[i] == Preimage(leaf);
      UniquelyDecodable(caps[i], leaf);
    }
  }

  /**
   Every granted call gets through: a call that agrees with a capability on the committed fields is
   authorized by the proof the client extracts for that capability's leaf.
   */
  lemma GrantedIsAuthorized(h: Hasher, programId: Address, policy: StrategyPolicy, caps: seq<Leaf>,
                            call: ManagedCall, i: nat)
    returns (k: nat)
    requires Capabilities(caps) && policy.merkleRoot == CompiledRoot(h, caps)
    requires PolicyApplies(policy, call) && Accepted(LeafOf(programId, call))
    requires i < |caps| && SameCommittedFields(caps[i], LeafOf(programId, call))
    ensures var sorted := Sorted(Digests(h, Preimages(caps)));
            && k < |sorted| && sorted[k] == h(Preimage(caps[i]))
            && Authorized(h, programId, policy, call, LeafProof(h, sorted, k))
  {
    var digests := Digests(h, Preimages(caps));
    var sorted := Sorted(digests);
    SortedMembers(digests);
    assert digests[i] in sorted;
    k := Position(sorted, digests[i]);
    UniquelyDecodable(caps[i], LeafOf(programId, call));
    ProofReachesRoot(h, sorted, k);
    DepthBound(h, sorted);
  }

  /**
   Bumping the version revokes: once the stored version is none of the capabilities' versions, no
   call and no proof is authorized against the old root, unless hashed strings collide. The same
   holds for another vault, another strategist or another deployment of the program.
   */
  lemma StaleCapabilitiesRevoked(h: Hasher, programId: Address, policy: StrategyPolicy, caps: seq<Leaf>,
                                 call: ManagedCall, proof: seq<Digest>)
    requires Capabilities(caps) && policy.merkleRoot == CompiledRoot(h, caps)
    requires forall i :: 0 <= i < |caps| ==>
               || caps[i].version != policy.version || caps[i].vault != policy.vault
               || caps[i].strategist != policy.strategist || caps[i].program != programId
    requires Authorized(h, programId, policy, call, proof)
    ensures CollisionIn(h, HashedStrings(h, Preimages(caps), Preimage(LeafOf(programId, call)), proof))
  {
    AuthorizedOnlyIfGranted(h, programId, policy, caps, call, proof);
  }

  /** The leaf of a call holds the call's own data, with the vault as a signer that is never writable. */
  lemma LeafOfCall(programId: Address, call: ManagedCall)
    ensures var leaf := LeafOf(programId, call);
            && leaf.program == programId && leaf.vault == call.vault && leaf.strategist == call.strategist
            && leaf.target == call.target && leaf.version == call.policyVersion
            && leaf.data == call.data && leaf.operators == call.operators && |leaf.accounts| == |call.accounts|
            && forall i :: 0 <= i < |call.accounts| ==>
                 var given := call.accounts[i];
                 leaf.accounts[i] == if given.address == call.vault then AccountMeta(call.vault, true, false) else given
  {
    forall i | 0 <= i < |call.accounts| {
      NormalizeAt(call.vault, call.accounts, i);
    }
  }

  /** The privileges with which the outer transaction passes the vault make no difference. */
  lemma VaultFlagsIgnored(h: Hasher, programId: Address, policy: StrategyPolicy, call: ManagedCall,
                          accounts: seq<AccountMeta>, proof: seq<Digest>)
    requires |accounts| == |call.accounts|
    requires forall i :: 0 <= i < |accounts| ==>
               accounts[i] == call.accounts[i] || accounts[i].address == call.accounts[i].address == call.vault
    ensures var other := call.(accounts := accounts);
            Authorized(h, programId, policy, other, proof) <==> Authorized(h, programId, policy, call, proof)
  {
    hide Accepted, Preimage, Fold, Normalize, IsZeroRoot;
    var other := call.(accounts := accounts);
    LeafOfCall(programId, call);
    LeafOfCall(programId, other);
    assert LeafOf(programId, other).accounts == LeafOf(programId, call).accounts;
  }

  lemma {:induction false} ZeroValue(s: ByteSeq)
    ensures LittleEndianValue(s) == 0 <==> forall i :: 0 <= i < |s| ==> s[i] == 0
  {
    if s != [] {
      ZeroValue(s[1..]);
      assert forall i :: 0 <= i < |s| ==> s[i] == if i == 0 then s[0] else s[1..][i - 1];
    }
  }

  predicate BoundTo(policy: StrategyPolicy, call: ManagedCall)
  {
    policy.vault == call.vault && policy.strategist == call.strategist
  }

  predicate Active(policy: StrategyPolicy)
  {
    !policy.paused && LittleEndianValue(policy.merkleRoot) != 0 && !policy.executing
  }

  /** What each refusal by the policy tells: the first of its checks that failed. */
  lemma RefusalMeans(programId: Address, policy: StrategyPolicy, call: ManagedCall)
    ensures var e := CallRefusal(programId, policy, call);
            && (e == Some(InvalidVault) <==> policy.vault != call.vault)
            && (e == Some(InvalidStrategyPolicy) <==> policy.vault == call.vault && policy.strategist != call.strategist)
            && (e == Some(StrategyPolicyPaused) <==> BoundTo(policy, call) && policy.paused)
            && (e == Some(EmptyMerkleRoot) <==>
                  BoundTo(policy, call) && !policy.paused && LittleEndianValue(policy.merkleRoot) == 0)
            && (e == Some(ReentrantStrategyCall) <==>
                  BoundTo(policy, call) && !policy.paused && LittleEndianValue(policy.merkleRoot) != 0 && policy.executing)
            && (e == Some(StaleStrategyPolicyVersion) <==>
                  BoundTo(policy, call) && Active(policy) && policy.version != call.policyVersion)
  {
    hide Refusal;
    ZeroValue(policy.merkleRoot);
  }

  /** What each refusal of the call's sizes and operators tells, under a policy that applies. */
  lemma CallRefusalMeans(programId: Address, policy: StrategyPolicy, call: ManagedCall)
    requires PolicyApplies(policy, call)
    ensures var e := CallRefusal(programId, policy, call);
            && (e == Some(InstructionDataTooLarge) <==> |call.data| > MAX_INSTRUCTION_DATA_LEN)
            && (|call.data| <= MAX_INSTRUCTION_DATA_LEN ==>
                && (e == Some(TooManyCpiAccounts) <==> |call.accounts| > MAX_CPI_ACCOUNTS)
                && (|call.accounts| <= MAX_CPI_ACCOUNTS ==>
                    && (e == Some(InvalidVenueInstruction) <==> |call.data| < 8)
                    && (8 <= |call.data| && |call.operators| > MAX_POLICY_OPERATORS ==> e == Some(InvalidPolicyOperator))))
  {
    var leaf := LeafOf(programId, call);
    RefusalOfSizes(leaf);
    OperatorErrorsOnly(leaf.operators, leaf.data, leaf.accounts);
  }

  /**
   A policy that is not bound to the call, not active or of another version authorizes nothing, and no
   proof helps that is too deep.
   */
  lemma Unauthorized(h: Hasher, programId: Address, policy: StrategyPolicy, call: ManagedCall, proof: seq<Digest>)
    requires !BoundTo(policy, call) || !Active(policy) || policy.version != call.policyVersion || |proof| > 12
    ensures !Authorized(h, programId, policy, call, proof)
  {
    ZeroValue(policy.merkleRoot);
  }

  // ---- What a leaf leaves open ----

  /** Byte `p` of the instruction is in the discriminator or in an ingested range. */
  ghost predicate Covered(l: Leaf, p: nat)
  {
    p < 8 || exists i :: 0 <= i < |l.operators| && CoveredBy(l.operators[i], p)
  }

  predicate CoveredBy(op: Operator, p: nat)
  {
    op.IngestInstruction? && op.offset <= p < op.offset + op.length
  }

  /** A covered byte is the same in every call the capability authorizes. */
  lemma CoveredByteFixed(a: Leaf, b: Leaf, p: nat)
    requires Accepted(a) && Accepted(b) && SameCommittedFields(a, b)
    requires p < |a.data| && Covered(a, p)
    ensures a.data[p] == b.data[p]
  {
    if p < 8 {
      assert a.data[..8][p] == b.data[..8][p];
    } else {
      var i :| 0 <= i < |a.operators| && CoveredBy(a.operators[i], p);
      var from, to := a.operators[i].offset, a.operators[i].offset + a.operators[i].length;
      assert InBounds(a.operators[i], a.data, a.accounts) && InBounds(b.operators[i], b.data, b.accounts);
      assert a.data[from..to][p - from] == b.data[from..to][p - from];
    }
  }

  /** An uncovered byte may be replaced by any other without leaving the capability. */
  lemma UncoveredByteFree(a: Leaf, p: nat, v: Byte)
    requires Accepted(a) && p < |a.data| && !Covered(a, p)
    ensures var b := a.(data := a.data[p := v]);
            Accepted(b) && SameCommittedFields(a, b)
  {
    var b := a.(data := a.data[p := v]);
    forall i | 0 <= i < |a.operators|
      ensures InBounds(b.operators[i], b.data, b.accounts)
    {
      assert InBounds(a.operators[i], a.data, a.accounts);
    }
    forall i | 0 <= i < |a.operators| && a.operators[i].IngestInstruction?
      ensures var from, to := a.operators[i].offset, a.operators[i].offset + a.operators[i].length;
              to <= |a.data| && a.data[from..to] == b.data[from..to]
    {
      assert InBounds(a.operators[i], a.data, a.accounts);
      assert !CoveredBy(a.operators[i], p);
    }
    assert a.data[..8] == b.data[..8];
  }

  /**
   The amount charged to the rolling limit is fixed by the capability exactly when all eight of its
   bytes are covered; otherwise the same proof admits calls with other amounts.
   */
  lemma AmountFixedIffCovered(a: Leaf, k: nat)
    requires Accepted(a) && k < |a.operators| && a.operators[k].ManagerLimitAmount?
    ensures (forall p :: a.operators[k].limitOffset <= p < a.operators[k].limitOffset + 8 ==> Covered(a, p))
       <==> (forall b: Leaf :: Accepted(b) && SameCommittedFields(a, b) ==>
               LimitAmount(b.operators, b.data) == LimitAmount(a.operators, a.data))
  {
    var from := a.operators[k].limitOffset;
    assert InBounds(a.operators[k], a.data, a.accounts);
    LimitAmountAt(a.operators, a.data, k);
    if forall p :: from <= p < from + 8 ==> Covered(a, p) {
      forall b: Leaf | Accepted(b) && SameCommittedFields(a, b)
        ensures LimitAmount(b.operators, b.data) == LimitAmount(a.operators, a.data)
      {
        CoveredAmountFixed(a, b, k);
      }
    } else {
      var p :| from <= p < from + 8 && !Covered(a, p);
      UncoveredAmountVaries(a, k, p);
    }
  }

  lemma CoveredAmountFixed(a: Leaf, b: Leaf, k: nat)
    requires Accepted(a) && Accepted(b) && SameCommittedFields(a, b)
    requires k < |a.operators| && a.operators[k].ManagerLimitAmount?
    requires forall p :: a.operators[k].limitOffset <= p < a.operators[k].limitOffset + 8 ==> Covered(a, p)
    ensures LimitAmount(b.operators, b.data) == LimitAmount(a.operators, a.data)
  {
    var from := a.operators[k].limitOffset;
    assert InBounds(a.operators[k], a.data, a.accounts);
    forall p | from <= p < from + 8 ensures a.data[p] == b.data[p] {
      CoveredByteFixed(a, b, p);
    }
    assert a.data[from..from + 8] == b.data[from..from + 8];
    LimitAmountAt(a.operators, a.data, k);
    LimitAmountAt(b.operators, b.data, k);
  }

  lemma UncoveredAmountVaries(a: Leaf, k: nat, p: nat)
    requires Accepted(a) && k < |a.operators| && a.operators[k].ManagerLimitAmount?
    requires a.operators[k].limitOffset <= p < a.operators[k].limitOffset + 8 && !Covered(a, p)
    ensures exists b: Leaf :: Accepted(b) && SameCommittedFields(a, b)
              && LimitAmount(b.operators, b.data) != LimitAmount(a.operators, a.data)
  {
    var from := a.operators[k].limitOffset;
    assert InBounds(a.operators[k], a.data, a.accounts);
    var v: Byte := if a.data[p] == 0 then 1 else 0;
    var b := a.(data := a.data[p := v]);
    UncoveredByteFree(a, p, v);
    LimitAmountAt(a.operators, a.data, k);
    LimitAmountAt(b.operators, b.data, k);
    DifferentBytesDiffer(a.data[from..from + 8], b.data[from..from + 8], p - from);
  }

  lemma DifferentBytesDiffer(s: ByteSeq, t: ByteSeq, i: nat)
    requires |s| == |t| && i < |s| && s[i] != t[i]
    ensures LittleEndianValue(s) != LittleEndianValue(t)
  {
    LittleEndianOfValue(s);
    LittleEndianOfValue(t);
  }
}
