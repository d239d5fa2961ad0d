/**
 The TypeScript client: a second implementation of the leaf encoder, the tree builder and the
 prover. Its contracts name the same specification as the Rust client's, on the wider inputs that
 the language lets through: plain numbers, and byte strings of any length where digests belong.
 */
module TypeScriptPolicyClient {
  import opened Arithmetic
  import opened Wrappers
  import opened Bytes
  import opened PolicyLeaf
  import opened PolicyTree

  const MAX_SAFE_INTEGER := 0x1F_FFFF_FFFF_FFFF

  /** A number of the language; the last two stand for the fractions and infinities of one sign, and NaN. */
  datatype Number = Whole(value: int) | NotWhole(positive: bool)

  predicate InRange(n: Number, max: nat)
  {
    n.Whole? && 0 <= n.value <= max
  }

  predicate IsSafeInteger(n: Number)
  {
    n.Whole? && -MAX_SAFE_INTEGER <= n.value <= MAX_SAFE_INTEGER
  }

  predicate Positive(n: Number)
  {
    match n
    case Whole(value) => value > 0
    case NotWhole(positive) => positive
  }

  datatype OperatorArgs =
    | IngestInstructionArgs(offset: Number, length: Number)
    | IngestAccountArgs(index: Number)
    | ManagerLimitAmountArgs(limitOffset: Number)

  datatype PolicyVersion = NumberVersion(number: Number) | BigIntVersion(bigint: int)

  datatype LeafInput = LeafInput(
    vault: Address,
    strategist: Address,
    policyVersion: PolicyVersion,
    targetProgram: Address,
    instructionData: ByteSeq,
    accounts: seq<AccountMeta>,
    operators: seq<OperatorArgs>,
    programAddress: Option<Address>)

  datatype LeafError = Refused(reason: HashError) | UnsafeVersion | VersionOutOfRange

  datatype TreeFailure = TreeRefused(reason: TreeError) | NotADigest

  // ---- Which inputs have the types of the Rust client ----

  predicate TypedOperator(op: OperatorArgs)
  {
    match op
    case IngestInstructionArgs(offset, length) => InRange(offset, 0xffff) && InRange(length, 0xffff)
    case IngestAccountArgs(index) => InRange(index, 0xff)
    case ManagerLimitAmountArgs(offset) => InRange(offset, 0xffff)
  }

  predicate TypedVersion(v: PolicyVersion)
  {
    match v
    case NumberVersion(number) => InRange(number, MAX_SAFE_INTEGER)
    case BigIntVersion(bigint) => 0 <= bigint <= MAX_U64
  }

  predicate Typed(input: LeafInput)
  {
    TypedVersion(input.policyVersion) && forall i :: 0 <= i < |input.operators| ==> TypedOperator(input.operators[i])
  }

  function Narrow(n: Number, max: nat): (r: nat)
    ensures r <= max && (InRange(n, max) ==> r == n.value)
  {
    if InRange(n, max) then n.value else 0
  }

  function VersionOf(v: PolicyVersion): U64
  {
    match v
    case NumberVersion(number) => Narrow(number, MAX_U64)
    case BigIntVersion(bigint) => Narrow(Whole(bigint), MAX_U64)
  }

  function ToOperator(op: OperatorArgs): Operator
  {
    match op
    case IngestInstructionArgs(offset, length) => IngestInstruction(Narrow(offset, 0xffff), Narrow(length, 0xffff))
    case IngestAccountArgs(index) => IngestAccount(Narrow(index, 0xff))
    case ManagerLimitAmountArgs(offset) => ManagerLimitAmount(Narrow(offset, 0xffff))
  }

  function ToOperators(ops: seq<OperatorArgs>): (r: seq<Operator>)
    ensures |r| == |ops| && forall i :: 0 <= i < |r| ==> r[i] == ToOperator(ops[i])
  {
    seq(|ops|, (i: nat) requires i < |ops| => ToOperator(ops[i]))
  }

  /** The leaf an input denotes; it is the input itself, field by field, when the input is `Typed`. */
  function ToLeaf(input: LeafInput, programId: Address): Leaf
  {
    Leaf(if input.programAddress.Some? then input.programAddress.value else programId,
         input.vault, input.strategist, VersionOf(input.policyVersion), input.targetProgram,
         input.instructionData, input.accounts, ToOperators(input.operators))
  }

  function FromOperator(op: Operator): OperatorArgs
  {
    match op
    case IngestInstruction(offset, length) => IngestInstructionArgs(Whole(offset), Whole(length))
    case IngestAccount(index) => IngestAccountArgs(Whole(index))
    case ManagerLimitAmount(offset) => ManagerLimitAmountArgs(Whole(offset))
  }

  /** How a leaf of the Rust client is written down for this one. */
  function FromLeaf(l: Leaf): LeafInput
  {
    LeafInput(l.vault, l.strategist, BigIntVersion(l.version), l.target, l.data, l.accounts,
              seq(|l.operators|, (i: nat) requires i < |l.operators| => FromOperator(l.operators[i])), Some(l.program))
  }

  /** Every leaf of the Rust client is the meaning of a typed input, so the two accept the same leaves. */
  lemma EveryLeafHasTypedInput(l: Leaf, programId: Address)
    ensures Typed(FromLeaf(l)) && ToLeaf(FromLeaf(l), programId) == l
  {
    assert ToOperators(FromLeaf(l).operators) == l.operators;
  }

  // ---- Byte helpers ----

  method TotalLength(values: seq<ByteSeq>) returns (length: nat)
    ensures length == |Flatten(values)|
  {
    length := 0;
    for i := 0 to |values|
      invariant length == |Flatten(values[..i])|
    {
      assert values[..i + 1] == values[..i] + [values[i]];
      FlattenSnoc(values[..i], values[i]);
      length := length + |values[i]|;
    }
    assert values[..|values|] == values;
  }

  method ConcatBytes(values: seq<ByteSeq>) returns (result: array<Byte>)
    ensures result[..] == Flatten(values)
  {
    var length := TotalLength(values);
    result := new Byte[length](_ => 0);
    var offset := 0;
    for i := 0 to |values|
      invariant offset == |Flatten(values[..i])| <= result.Length
      invariant result[..offset] == Flatten(values[..i])
    {
      assert values[..i + 1] == values[..i] + [values[i]];
      FlattenSnoc(values[..i], values[i]);
      assert values == values[..i + 1] + values[i + 1..];
      FlattenAppend(values[..i + 1], values[i + 1..]);
      CopyInto(result, values[i], offset);
      assert result[..offset + |values[i]|] == result[..offset] + result[offset..offset + |values[i]|];
      offset := offset + |values[i]|;
    }
    assert values[..|values|] == values;
    assert result[..] == result[..offset];
  }

  /** Negative, zero or positive as `left` sorts before, equals or sorts after `right`. */
  method CompareBytes(left: ByteSeq, right: ByteSeq) returns (order: int)
    ensures order <= 0 <==> LexLe(left, right)
    ensures order == 0 <==> left == right
  {
    var n := if |left| < |right| then |left| else |right|;
    for index := 0 to n
      invariant left[..index] == right[..index]
    {
      if left[index] != right[index] {
        LexAfterPrefix(left, right, index);
        return left[index] as int - right[index] as int;
      }
    }
    LexAfterPrefix(left, right, n);
    return |left| - |right|;
  }

  lemma {:induction false} LexAfterPrefix(a: ByteSeq, b: ByteSeq, k: nat)
    requires k <= |a| && k <= |b| && a[..k] == b[..k]
    ensures LexLe(a, b) <==> LexLe(a[k..], b[k..])
  {
    if k > 0 {
      assert a[0] == a[..k][0] && b[0] == b[..k][0];
      assert a[1..][..k - 1] == a[..k][1..] && b[1..][..k - 1] == b[..k][1..];
      assert a[1..][k - 1..] == a[k..] && b[1..][k - 1..] == b[k..];
      LexAfterPrefix(a[1..], b[1..], k - 1);
    }
  }

  // ---- Leaf ----

  /** One turn of the operator loop: the pieces pushed for operator `k`, or the error thrown. */
  method EncodeOperator(input: LeafInput, ghost leaf: Leaf, k: nat, hasManagerLimitAmount: bool, ingestedInstructionBytes: nat)
    returns (r: Result<seq<ByteSeq>, HashError>, hasManagerLimitAmount': bool, ingestedInstructionBytes': nat)
    requires leaf.data == input.instructionData && leaf.accounts == input.accounts
    requires leaf.operators == ToOperators(input.operators)
    requires k < |input.operators| && Clean(leaf, k)
    requires hasManagerLimitAmount == HasLimit(leaf.operators[..k])
    requires ingestedInstructionBytes == IngestedBytes(leaf.operators[..k])
    ensures r.Ok? ==> TypedOperator(input.operators[k]) && Clean(leaf, k + 1)
    ensures r.Ok? ==> Flatten(r.value) == EncodeItem(CommitOperator(leaf.operators[k], leaf.data, leaf.accounts))
    ensures r.Ok? ==> hasManagerLimitAmount' == HasLimit(leaf.operators[..k + 1])
    ensures r.Ok? ==> ingestedInstructionBytes' == IngestedBytes(leaf.operators[..k + 1])
    ensures r.Err? && TypedOperator(input.operators[k]) ==>
              OperatorError(leaf.operators[..k], leaf.operators[k], leaf.data, leaf.accounts) == Some(r.error)
  {
    hide LittleEndian, Flatten;
    var op := input.operators[k];
    ghost var ops := leaf.operators;
    assert ops[..k + 1] == ops[..k] + [ops[k]];
    hasManagerLimitAmount' := hasManagerLimitAmount;
    ingestedInstructionBytes' := ingestedInstructionBytes;
    match op {
      case IngestInstructionArgs(offset, length) =>
        if !Positive(length) {
          r := Err(EmptyInstructionRange);
          return;
        }
        if !(offset.Whole? && length.Whole? && offset.value >= 0 && offset.value <= 0xffff && length.value <= 0xffff
             && offset.value + length.value <= |input.instructionData|) {
          r := Err(OperatorOutOfBounds);
          return;
        }
        var end := offset.value + length.value;
        ingestedInstructionBytes' := ingestedInstructionBytes + length.value;
        if !(ingestedInstructionBytes' <= MAX_INGESTED_INSTRUCTION_BYTES) {
          r := Err(IngestionLimitExceeded);
          return;
        }
        var pieces := [[0], LittleEndian(offset.value, 2), LittleEndian(length.value, 2), input.instructionData[offset.value..end]];
        assert Flatten(pieces) == EncodeItem(CommitOperator(ops[k], leaf.data, leaf.accounts)) by { FlattenFour(pieces); }
        r := Ok(pieces);
      case IngestAccountArgs(index) =>
        if !(index.Whole? && index.value >= 0 && index.value <= 0xff && index.value < |input.accounts|) {
          r := Err(OperatorOutOfBounds);
          return;
        }
        var account := input.accounts[index.value];
        var pieces := [[1, index.value], account.address, [Flag(account.isSigner), Flag(account.isWritable)], []];
        assert Flatten(pieces) == EncodeItem(CommitOperator(ops[k], leaf.data, leaf.accounts)) by { FlattenFour(pieces); }
        r := Ok(pieces);
      case ManagerLimitAmountArgs(offset) =>
        if hasManagerLimitAmount {
          r := Err(DuplicateManagerLimitAmount);
          return;
        }
        if !(offset.Whole? && offset.value >= 0 && offset.value <= 0xffff && offset.value + 8 <= |input.instructionData|) {
          r := Err(OperatorOutOfBounds);
          return;
        }
        hasManagerLimitAmount' := true;
        assert ops[..k + 1][k].ManagerLimitAmount?;
        var pieces := [[2], LittleEndian(offset.value, 2), [], []];
        assert Flatten(pieces) == EncodeItem(CommitOperator(ops[k], leaf.data, leaf.accounts)) by { FlattenFour(pieces); }
        r := Ok(pieces);
    }
    CleanNext(leaf, k);
  }

  lemma FlattenFour(p: seq<ByteSeq>)
    requires |p| == 4
    ensures Flatten(p) == p[0] + p[1] + p[2] + p[3]
  {
    assert Flatten(p[4..]) == [];
    assert Flatten(p[3..]) == p[3] + Flatten(p[4..]);
    assert Flatten(p[2..]) == p[2] + Flatten(p[3..]);
    assert Flatten(p[1..]) == p[1] + Flatten(p[2..]);
  }

  lemma FlattenNothing()
    ensures Flatten([]) == []
  {
  }

  method EncodeOperators(input: LeafInput, ghost leaf: Leaf) returns (r: Result<seq<ByteSeq>, HashError>)
    requires leaf.data == input.instructionData && leaf.accounts == input.accounts
    requires leaf.operators == ToOperators(input.operators)
    ensures r.Ok? ==> forall i :: 0 <= i < |input.operators| ==> TypedOperator(input.operators[i])
    ensures r.Ok? ==> Clean(leaf, |leaf.operators|) && Flatten(r.value) == OperatorBytes(leaf, |leaf.operators|)
    ensures r.Err? && (forall i :: 0 <= i < |input.operators| ==> TypedOperator(input.operators[i])) ==>
              OperatorsError(leaf.operators, leaf.data, leaf.accounts) == Some(r.error)
  {
    hide Flatten, EncodeItem, CommitOperator, OperatorError, ToOperator;
    var pieces: seq<ByteSeq> := [];
    assert Flatten(pieces) == [] by { FlattenNothing(); }
    var hasManagerLimitAmount := false;
    var ingestedInstructionBytes := 0;
    for i := 0 to |input.operators|
      invariant Clean(leaf, i) && Flatten(pieces) == OperatorBytes(leaf, i)
      invariant forall j :: 0 <= j < i ==> TypedOperator(input.operators[j])
      invariant hasManagerLimitAmount == HasLimit(leaf.operators[..i])
      invariant ingestedInstructionBytes == IngestedBytes(leaf.operators[..i])
    {
      var pushed;
      pushed, hasManagerLimitAmount, ingestedInstructionBytes :=
        EncodeOperator(input, leaf, i, hasManagerLimitAmount, ingestedInstructionBytes);
      if pushed.Err? {
        if TypedOperator(input.operators[i]) {
          CleanStops(leaf, i, pushed.error);
        }
        return Err(pushed.error);
      }
      FlattenAppend(pieces, pushed.value);
      pieces := pieces + pushed.value;
    }
    return Ok(pieces);
  }

  /** Hashes the leaf of exactly the typed inputs that the Rust client accepts, and to the same digest. */
  method HashStrategyPolicyLeaf(h: Hasher, input: LeafInput, programId: Address) returns (r: Result<Digest, LeafError>)
    ensures r.Ok? <==> Typed(input) && Accepted(ToLeaf(input, programId))
    ensures r.Ok? ==> r.value == h(Preimage(ToLeaf(input, programId)))
    ensures Typed(input) && !Accepted(ToLeaf(input, programId)) ==>
              Refusal(ToLeaf(input, programId)).Some? && r == Err(Refused(Refusal(ToLeaf(input, programId)).value))
  {
    hide Flatten, Preimage, OperatorBytes, OperatorsError, LittleEndian;
    ghost var leaf := ToLeaf(input, programId);
    RefusedIffNotAccepted(leaf);
    if !(|input.instructionData| >= 8 && |input.instructionData| <= MAX_INSTRUCTION_DATA_LEN) {
      return Err(Refused(InvalidInstructionData));
    }
    if !(|input.accounts| <= MAX_CPI_ACCOUNTS) {
      return Err(Refused(TooManyAccounts));
    }
    if !(|input.operators| <= MAX_POLICY_OPERATORS) {
      return Err(Refused(TooManyOperators));
    }
    if input.policyVersion.NumberVersion? && !IsSafeInteger(input.policyVersion.number) {
      return Err(UnsafeVersion);
    }
    var version := if input.policyVersion.NumberVersion? then input.policyVersion.number.value else input.policyVersion.bigint;
    if !(version >= 0 && version <= MAX_U64) {
      return Err(VersionOutOfRange);
    }
    var operators := EncodeOperators(input, leaf);
    if operators.Err? {
      return Err(Refused(operators.error));
    }
    CleanFinished(leaf);
    var program := if input.programAddress.Some? then input.programAddress.value else programId;
    var header := HeaderPiecesOf(program, input, version);
    assert Flatten(header) == LeafHeader(leaf);
    var bytes := ConcatBytes(header + operators.value);
    FlattenAppend(header, operators.value);
    return Ok(h(bytes[..]));
  }

  /** The first pieces of the chunk list, before any operator. */
  function HeaderPiecesOf(program: Address, input: LeafInput, version: U64): seq<ByteSeq>
    requires 8 <= |input.instructionData| && |input.operators| < 0x100
  {
    [LEAF_DOMAIN, program, input.vault, input.strategist, LittleEndian(version, 8), input.targetProgram,
     input.instructionData[..8], LittleEndian(|input.instructionData|, 4), LittleEndian(|input.accounts|, 2),
     [|input.operators|]]
  }

  // ---- Tree ----

  method HashStrategyPolicyNode(h: Hasher, first: ByteSeq, second: ByteSeq) returns (r: Result<Digest, TreeFailure>)
    ensures r.Ok? <==> |first| == 32 && |second| == 32
    ensures r.Ok? ==> r.value == NodeHash(h, first, second)
  {
    if |first| != 32 || |second| != 32 {
      return Err(NotADigest);
    }
    var order := CompareBytes(first, second);
    var lower, upper := if order <= 0 then first else second, if order <= 0 then second else first;
    var pieces := [NODE_DOMAIN, lower, upper, []];
    FlattenFour(pieces);
    var bytes := ConcatBytes(pieces);
    assert bytes[..] == NodeInput(first, second);
    return Ok(h(bytes[..]));
  }

  ghost predicate AllDigests(leafHashes: seq<ByteSeq>)
  {
    forall i :: 0 <= i < |leafHashes| ==> |leafHashes[i]| == 32
  }

  method AssertHashes(leafHashes: seq<ByteSeq>) returns (r: Option<seq<Digest>>)
    ensures r.Some? <==> AllDigests(leafHashes)
    ensures r.Some? ==> r.value == leafHashes
  {
    var digests: seq<Digest> := [];
    for i := 0 to |leafHashes|
      invariant digests == leafHashes[..i] && forall j :: 0 <= j < i ==> |leafHashes[j]| == 32
    {
      if |leafHashes[i]| != 32 {
        return None;
      }
      digests := digests + [leafHashes[i]];
    }
    return Some(digests);
  }

  method HashPairs(h: Hasher, current: seq<Digest>) returns (next: seq<Digest>)
    ensures next == NextLevel(h, current)
  {
    next := [];
    var index := 0;
    while index < |current|
      invariant index == 2 * |next| && |next| <= (|current| + 1) / 2
      invariant next == NextLevel(h, current)[..|next|]
      decreases |current| + 1 - index
    {
      var left := current[index];
      var right := if index + 1 < |current| then current[index + 1] else left;
      var node := HashStrategyPolicyNode(h, left, right);
      assert NextLevel(h, current)[|next|] == NodeHash(h, left, right);
      next := next + [node.value];
      index := index + 2;
    }
  }

  method BuildLevels(h: Hasher, sorted: seq<Digest>) returns (levels: seq<seq<Digest>>)
    requires sorted != []
    ensures levels == Levels(h, sorted)
  {
    hide Levels, NextLevel, Root;
    var current := sorted;
    levels := [current];
    ghost var below: seq<seq<Digest>> := [];
    while |current| > 1
      invariant current != []
      invariant levels == below + [current]
      invariant below + Levels(h, current) == Levels(h, sorted)
      decreases |current|
    {
      var next := HashPairs(h, current);
      LevelClosed(h, current, below);
      below := below + [current];
      current := next;
      levels := levels + [current];
    }
    TopLevel(h, current);
  }

  /** Builds the tree the Rust client builds, after checking that every leaf is a digest. */
  method BuildStrategyPolicyMerkleTree(h: Hasher, leafHashes: seq<ByteSeq>) returns (r: Result<Tree, TreeFailure>)
    ensures leafHashes == [] ==> r == Err(TreeRefused(EmptyTree))
    ensures |leafHashes| > MAX_POLICY_LEAVES ==> r == Err(TreeRefused(TreeTooLarge))
    ensures 0 < |leafHashes| <= MAX_POLICY_LEAVES && !AllDigests(leafHashes) ==> r == Err(NotADigest)
    ensures 0 < |leafHashes| <= MAX_POLICY_LEAVES && AllDigests(leafHashes) ==> r == Ok(TreeOf(h, leafHashes))
  {
    if !(|leafHashes| > 0) {
      return Err(TreeRefused(EmptyTree));
    }
    if !(|leafHashes| <= MAX_POLICY_LEAVES) {
      return Err(TreeRefused(TreeTooLarge));
    }
    var digests := AssertHashes(leafHashes);
    if digests.None? {
      return Err(NotADigest);
    }
    var levels := BuildLevels(h, Sorted(digests.value));
    return Ok(Tree(levels[0], levels, levels[|levels| - 1][0]));
  }

  /** The Rust client's proof, for every index that is one. */
  method GetStrategyPolicyProof(tree: Tree, sortedLeafIndex: Number) returns (r: Result<seq<Option<Digest>>, TreeFailure>)
    ensures !(sortedLeafIndex.Whole? && 0 <= sortedLeafIndex.value < |tree.leaves|) ==>
              r == Err(TreeRefused(LeafIndexOutOfBounds))
    ensures sortedLeafIndex.Whole? && 0 <= sortedLeafIndex.value < |tree.leaves| ==>
              r == Ok(Siblings(tree.levels, sortedLeafIndex.value))
  {
    if !(sortedLeafIndex.Whole? && sortedLeafIndex.value >= 0 && sortedLeafIndex.value < |tree.leaves|) {
      return Err(TreeRefused(LeafIndexOutOfBounds));
    }
    ghost var siblings := Siblings(tree.levels, sortedLeafIndex.value);
    var proof: seq<Option<Digest>> := [];
    var index := sortedLeafIndex.value;
    assert tree.levels[0..] == tree.levels;
    var levelIndex := 0;
    while levelIndex < |tree.levels| - 1
      invariant index >= 0 && 0 <= levelIndex == |proof| <= |siblings|
      invariant Siblings(tree.levels[levelIndex..], index) == siblings[levelIndex..]
      invariant proof == siblings[..levelIndex]
    {
      var level := tree.levels[levelIndex];
      var siblingIndex := if index % 2 == 0 then index + 1 else index - 1;
      SiblingsStep(tree.levels, levelIndex, index);
      assert siblings[levelIndex..][0] == siblings[levelIndex];
      assert siblings[levelIndex..][1..] == siblings[levelIndex + 1..];
      proof := proof + [if siblingIndex < |level| then Some(level[siblingIndex])
                        else if index < |level| then Some(level[index]) else None];
      index := index / 2;
      levelIndex := levelIndex + 1;
    }
    assert proof == siblings;
    return Ok(proof);
  }
}
