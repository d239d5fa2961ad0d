/** The Rust client: hashing a policy leaf, building the tree, and extracting a membership proof. */
module PolicyClient {
  import opened Wrappers
  import opened Bytes
  import opened PolicyLeaf
  import opened PolicyTree

  /** One turn of the operator loop: the bytes operator `k` adds, or the error it raises. */
  method EncodeOperator(input: Leaf, k: nat, hasManagerLimitAmount: bool, ingestedInstructionBytes: nat)
    returns (r: Result<ByteSeq, HashError>, hasManagerLimitAmount': bool, ingestedInstructionBytes': nat)
    requires k < |input.operators|
    requires hasManagerLimitAmount == HasLimit(input.operators[..k])
    requires ingestedInstructionBytes == IngestedBytes(input.operators[..k])
    ensures var e := OperatorError(input.operators[..k], input.operators[k], input.data, input.accounts);
            && (e.Some? ==> r == Err(e.value))
            && (e.None? ==>
                && InBounds(input.operators[k], input.data, input.accounts)
                && r == Ok(EncodeItem(CommitOperator(input.operators[k], input.data, input.accounts))))
    ensures r.Ok? ==> hasManagerLimitAmount' == HasLimit(input.operators[..k + 1])
    ensures r.Ok? ==> ingestedInstructionBytes' == IngestedBytes(input.operators[..k + 1])
  {
    var op := input.operators[k];
    assert input.operators[..k + 1] == input.operators[..k] + [op];
    hasManagerLimitAmount' := hasManagerLimitAmount;
    ingestedInstructionBytes' := ingestedInstructionBytes;
    match op {
      case IngestInstruction(offset, length) =>
        if length == 0 {
          r := Err(EmptyInstructionRange);
          return;
        }
        var to := offset + length;
        if to > |input.data| {
          r := Err(OperatorOutOfBounds);
          return;
        }
        var selected := input.data[offset..to];
        ingestedInstructionBytes' := ingestedInstructionBytes + |selected|;
        if ingestedInstructionBytes' > MAX_INGESTED_INSTRUCTION_BYTES {
          r := Err(IngestionLimitExceeded);
          return;
        }
        r := Ok([0] + LittleEndian(offset, 2) + LittleEndian(length, 2) + selected);
      case IngestAccount(index) =>
        if index >= |input.accounts| {
          r := Err(OperatorOutOfBounds);
          return;
        }
        var account := input.accounts[index];
        r := Ok([1, index] + account.address + [Flag(account.isSigner), Flag(account.isWritable)]);
      case ManagerLimitAmount(offset) =>
        if hasManagerLimitAmount {
          r := Err(DuplicateManagerLimitAmount);
          return;
        }
        if offset + 8 > |input.data| {
          r := Err(OperatorOutOfBounds);
          return;
        }
        hasManagerLimitAmount' := true;
        assert input.operators[..k + 1][k].ManagerLimitAmount?;
        r := Ok([2] + LittleEndian(offset, 2));
    }
  }

  /** The operator loop: every operator's bytes in order, or the first error. */
  method EncodeOperators(input: Leaf) returns (r: Result<ByteSeq, HashError>)
    ensures var e := OperatorsError(input.operators, input.data, input.accounts);
            && (e.Some? ==> r == Err(e.value))
            && (e.None? ==> Clean(input, |input.operators|) && r == Ok(OperatorBytes(input, |input.operators|)))
  {
    hide CommitOperator, EncodeItem, OperatorError;
    var bytes: ByteSeq := [];
    var hasManagerLimitAmount := false;
    var ingestedInstructionBytes := 0;
    for i := 0 to |input.operators|
      invariant Clean(input, i)
      invariant bytes == OperatorBytes(input, i)
      invariant hasManagerLimitAmount == HasLimit(input.operators[..i])
      invariant ingestedInstructionBytes == IngestedBytes(input.operators[..i])
    {
      var encoded;
      encoded, hasManagerLimitAmount, ingestedInstructionBytes :=
        EncodeOperator(input, i, hasManagerLimitAmount, ingestedInstructionBytes);
      if encoded.Err? {
        CleanStops(input, i, encoded.error);
        return Err(encoded.error);
      }
      CleanNext(input, i);
      bytes := bytes + encoded.value;
    }
    assert input.operators[..|input.operators|] == input.operators;
    return Ok(bytes);
  }

  /** Hashes the canonical leaf of a call, or says why the call has none. */
  method HashStrategyPolicyLeaf(h: Hasher, input: Leaf) returns (r: Result<Digest, HashError>)
    ensures Accepted(input) ==> r == Ok(h(Preimage(input)))
    ensures !Accepted(input) ==> Refusal(input).Some? && r == Err(Refusal(input).value)
  {
    RefusedIffNotAccepted(input);
    if !(8 <= |input.data| <= MAX_INSTRUCTION_DATA_LEN) {
      return Err(InvalidInstructionData);
    }
    if |input.accounts| > MAX_CPI_ACCOUNTS {
      return Err(TooManyAccounts);
    }
    if |input.operators| > MAX_POLICY_OPERATORS {
      return Err(TooManyOperators);
    }
    var encoded := EncodeOperators(input);
    if encoded.Err? {
      return Err(encoded.error);
    }
    CleanFinished(input);
    return Ok(h(LeafHeader(input) + encoded.value));
  }

  /** Hashes the pairs of one level. */
  method HashPairs(h: Hasher, current: seq<Digest>) returns (next: seq<Digest>)
    ensures next == NextLevel(h, current)
  {
    next := [];
    var i := 0;
    while i < |current|
      invariant i == 2 * |next| && |next| <= (|current| + 1) / 2
      invariant next == NextLevel(h, current)[..|next|]
      decreases |current| + 1 - i
    {
      var second := if i + 1 < |current| then current[i + 1] else current[i];
      assert NextLevel(h, current)[|next|] == NodeHash(h, current[i], second);
      next := next + [NodeHash(h, current[i], second)];
      i := i + 2;
    }
  }

  /** Sorts the leaves and builds every level up to the root. */
  method BuildStrategyPolicyMerkleTree(h: Hasher, leaves: seq<Digest>) returns (r: Result<Tree, TreeError>)
    ensures leaves == [] ==> r == Err(EmptyTree)
    ensures |leaves| > MAX_POLICY_LEAVES ==> r == Err(TreeTooLarge)
    ensures 0 < |leaves| <= MAX_POLICY_LEAVES ==> r == Ok(TreeOf(h, leaves))
  {
    hide Sorted, NextLevel, Levels, Root;
    if leaves == [] {
      return Err(EmptyTree);
    }
    if |leaves| > MAX_POLICY_LEAVES {
      return Err(TreeTooLarge);
    }
    var sorted := Sorted(leaves);
    var levels := [sorted];
    var current := sorted;
    ghost var below: seq<seq<Digest>> := [];
    while |current| > 1
      invariant current != []
      invariant levels == below + [current]
      invariant below + Levels(h, current) == Levels(h, sorted)
      invariant Root(h, current) == Root(h, sorted)
      decreases |current|
    {
      var next := HashPairs(h, current);
      LevelClosed(h, current, below);
      below := below + [current];
      levels := levels + [next];
      current := next;
    }
    TopLevel(h, current);
    return Ok(Tree(sorted, levels, current[0]));
  }

  /** The sibling digests from a leaf, given by its sorted index, up to just below the root. */
  method StrategyPolicyProof(tree: Tree, sortedLeafIndex: nat) returns (r: Result<seq<Digest>, TreeError>)
    ensures sortedLeafIndex >= |tree.leaves| ==> r == Err(LeafIndexOutOfBounds)
    ensures sortedLeafIndex < |tree.leaves| ==>
              var siblings := Siblings(tree.levels, sortedLeafIndex);
              r == if NoneMissing(siblings) then Ok(Found(siblings)) else Err(NoSibling)
  {
    if sortedLeafIndex >= |tree.leaves| {
      return Err(LeafIndexOutOfBounds);
    }
    ghost var siblings := Siblings(tree.levels, sortedLeafIndex);
    var proof: seq<Digest> := [];
    var index := sortedLeafIndex;
    var above := if |tree.levels| == 0 then 0 else |tree.levels| - 1;
    assert tree.levels[0..] == tree.levels;
    for k := 0 to above
      invariant index >= 0 && |proof| == k && Siblings(tree.levels[k..], index) == siblings[k..]
      invariant forall j :: 0 <= j < k ==> siblings[j] == Some(proof[j])
    {
      var level := tree.levels[k];
      SiblingsStep(tree.levels, k, index);
      assert siblings[k..][0] == siblings[k] && siblings[k..][1..] == siblings[k + 1..];
      if index % 2 == 0 {
        if index >= |level| {
          return Err(NoSibling);
        }
        proof := proof + [if index + 1 < |level| then level[index + 1] else level[index]];
      } else {
        if index - 1 >= |level| {
          return Err(NoSibling);
        }
        proof := proof + [level[index - 1]];
      }
      index := index / 2;
    }
    assert NoneMissing(siblings) && proof == Found(siblings);
    return Ok(proof);
  }
}
