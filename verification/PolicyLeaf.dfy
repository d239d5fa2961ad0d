/**
 The strategy-policy leaf: what a managed call commits to, the byte string that is hashed for it,
 and when the call may be hashed at all.
 */
module PolicyLeaf {
  import opened Arithmetic
  import opened Wrappers
  import opened Bytes

  const LEAF_DOMAIN: ByteSeq := Ascii("async-vault-v2/strategy-policy-leaf/v1")
  const NODE_DOMAIN: ByteSeq := Ascii("async-vault-v2/strategy-policy-node/v1")

  const MAX_CPI_ACCOUNTS := 64
  const MAX_INSTRUCTION_DATA_LEN := 1024
  const MAX_POLICY_OPERATORS := 32
  const MAX_INGESTED_INSTRUCTION_BYTES := 2048

  lemma DomainsDiffer()
    ensures |LEAF_DOMAIN| == |NODE_DOMAIN| == 38
    ensures LEAF_DOMAIN != NODE_DOMAIN
  {
    assert LEAF_DOMAIN[31] != NODE_DOMAIN[31];
  }

  datatype AccountMeta = AccountMeta(address: Address, isSigner: bool, isWritable: bool)

  datatype Operator =
    | IngestInstruction(offset: U16, length: U16)
    | IngestAccount(index: U8)
    | ManagerLimitAmount(limitOffset: U16)

  /** A managed call as the policy sees it. */
  datatype Leaf = Leaf(
    program: Address,
    vault: Address,
    strategist: Address,
    version: U64,
    target: Address,
    data: ByteSeq,
    accounts: seq<AccountMeta>,
    operators: seq<Operator>)

  datatype HashError =
    | InvalidInstructionData
    | TooManyAccounts
    | TooManyOperators
    | OperatorOutOfBounds
    | EmptyInstructionRange
    | DuplicateManagerLimitAmount
    | IngestionLimitExceeded

  /** The privileges a venue receives: the vault account becomes a read-only signer. */
  function Normalize(vault: Address, accounts: seq<AccountMeta>): (r: seq<AccountMeta>)
    ensures |r| == |accounts|
  {
    if accounts == [] then []
    else
      var a := accounts[0];
      [AccountMeta(a.address, a.isSigner || a.address == vault, a.isWritable && a.address != vault)]
      + Normalize(vault, accounts[1..])
  }

  /** Entry by entry: addresses stay, only the vault's own entry changes, and it never stays writable. */
  lemma {:induction false} NormalizeAt(vault: Address, accounts: seq<AccountMeta>, k: nat)
    requires k < |accounts|
    ensures var r := Normalize(vault, accounts)[k];
            && r.address == accounts[k].address
            && (accounts[k].address != vault ==> r == accounts[k])
            && (accounts[k].address == vault ==> r.isSigner && !r.isWritable)
  {
    if k > 0 {
      NormalizeAt(vault, accounts[1..], k - 1);
    }
  }

  lemma {:induction false} NormalizeIdempotent(vault: Address, accounts: seq<AccountMeta>)
    ensures Normalize(vault, Normalize(vault, accounts)) == Normalize(vault, accounts)
  {
    if accounts != [] {
      NormalizeIdempotent(vault, accounts[1..]);
      assert Normalize(vault, accounts)[1..] == Normalize(vault, accounts[1..]);
    }
  }

  // ---- Which calls may be hashed ----

  predicate InBounds(op: Operator, data: ByteSeq, accounts: seq<AccountMeta>)
  {
    match op
    case IngestInstruction(offset, length) => length > 0 && offset + length <= |data|
    case IngestAccount(index) => index < |accounts|
    case ManagerLimitAmount(offset) => offset + 8 <= |data|
  }

  function IngestedBytes(ops: seq<Operator>): (n: nat)
  {
    if ops == [] then 0
    else
      var last := ops[|ops| - 1];
      IngestedBytes(ops[..|ops| - 1]) + if last.IngestInstruction? then last.length else 0
  }

  ghost predicate AtMostOneLimit(ops: seq<Operator>)
  {
    forall i, j :: 0 <= i < j < |ops| ==> !(ops[i].ManagerLimitAmount? && ops[j].ManagerLimitAmount?)
  }

  ghost predicate Accepted(l: Leaf)
  {
    && 8 <= |l.data| <= MAX_INSTRUCTION_DATA_LEN
    && |l.accounts| <= MAX_CPI_ACCOUNTS
    && |l.operators| <= MAX_POLICY_OPERATORS
    && (forall i :: 0 <= i < |l.operators| ==> InBounds(l.operators[i], l.data, l.accounts))
    && IngestedBytes(l.operators) <= MAX_INGESTED_INSTRUCTION_BYTES
    && AtMostOneLimit(l.operators)
  }

  /** The error one operator raises after the operators `before` it went through, if any. */
  function OperatorError(before: seq<Operator>, op: Operator, data: ByteSeq, accounts: seq<AccountMeta>): Option<HashError>
  {
    match op
    case IngestInstruction(offset, length) =>
      if length == 0 then Some(EmptyInstructionRange)
      else if offset + length > |data| then Some(OperatorOutOfBounds)
      else if IngestedBytes(before) + length > MAX_INGESTED_INSTRUCTION_BYTES then Some(IngestionLimitExceeded)
      else None
    case IngestAccount(index) =>
      if index >= |accounts| then Some(OperatorOutOfBounds) else None
    case ManagerLimitAmount(offset) =>
      if HasLimit(before) then Some(DuplicateManagerLimitAmount)
      else if offset + 8 > |data| then Some(OperatorOutOfBounds)
      else None
  }

  predicate HasLimit(ops: seq<Operator>)
  {
    exists i :: 0 <= i < |ops| && ops[i].ManagerLimitAmount?
  }

  /** The first error in operator order. */
  function OperatorsError(ops: seq<Operator>, data: ByteSeq, accounts: seq<AccountMeta>): Option<HashError>
  {
    if ops == [] then None
    else
      var n := |ops| - 1;
      var earlier := OperatorsError(ops[..n], data, accounts);
      if earlier.Some? then earlier else OperatorError(ops[..n], ops[n], data, accounts)
  }

  /** The error a call is refused with; `None` exactly for accepted calls (`RefusedIffNotAccepted`). */
  function Refusal(l: Leaf): Option<HashError>
  {
    if !(8 <= |l.data| <= MAX_INSTRUCTION_DATA_LEN) then Some(InvalidInstructionData)
    else if |l.accounts| > MAX_CPI_ACCOUNTS then Some(TooManyAccounts)
    else if |l.operators| > MAX_POLICY_OPERATORS then Some(TooManyOperators)
    else OperatorsError(l.operators, l.data, l.accounts)
  }

  lemma {:induction false} OperatorsErrorNone(ops: seq<Operator>, data: ByteSeq, accounts: seq<AccountMeta>)
    ensures OperatorsError(ops, data, accounts).None?
       <==> && (forall i :: 0 <= i < |ops| ==> InBounds(ops[i], data, accounts))
            && IngestedBytes(ops) <= MAX_INGESTED_INSTRUCTION_BYTES
            && AtMostOneLimit(ops)
  {
    if ops != [] {
      var n := |ops| - 1;
      OperatorsErrorNone(ops[..n], data, accounts);
      assert HasLimit(ops[..n]) && ops[n].ManagerLimitAmount? ==> !AtMostOneLimit(ops);
      assert ops == ops[..n] + [ops[n]];
    }
  }

  /** A call is refused exactly when it is not acceptable. */
  lemma RefusedIffNotAccepted(l: Leaf)
    ensures Refusal(l).None? <==> Accepted(l)
  {
    OperatorsErrorNone(l.operators, l.data, l.accounts);
  }

  /** A prefix's error is the whole list's error. */
  lemma {:induction false} ErrorOfPrefix(ops: seq<Operator>, k: nat, data: ByteSeq, accounts: seq<AccountMeta>)
    requires k <= |ops|
    requires OperatorsError(ops[..k], data, accounts).Some?
    ensures OperatorsError(ops, data, accounts) == OperatorsError(ops[..k], data, accounts)
  {
    if k < |ops| {
      var n := |ops| - 1;
      assert ops[..n][..k] == ops[..k];
      ErrorOfPrefix(ops[..n], k, data, accounts);
    } else {
      assert ops[..k] == ops;
    }
  }

  // ---- What an accepted call commits to ----

  datatype Item =
    | CommittedRange(offset: U16, length: U16, bytes: ByteSeq)
    | CommittedAccount(index: U8, account: AccountMeta)
    | CommittedLimit(limitOffset: U16)
  {
    predicate Valid() { CommittedRange? ==> |bytes| == length }
  }

  datatype Commitment = Commitment(
    program: Address,
    vault: Address,
    strategist: Address,
    version: U64,
    target: Address,
    discriminator: ByteSeq,
    dataLength: U32,
    accountCount: U16,
    items: seq<Item>)
  {
    ghost predicate Valid()
    {
      && |discriminator| == 8
      && |items| < 0x100
      && forall i :: 0 <= i < |items| ==> items[i].Valid()
    }
  }

  function CommitOperator(op: Operator, data: ByteSeq, accounts: seq<AccountMeta>): (i: Item)
    requires InBounds(op, data, accounts)
    ensures i.Valid()
  {
    match op
    case IngestInstruction(offset, length) => CommittedRange(offset, length, data[offset..offset + length])
    case IngestAccount(index) => CommittedAccount(index, accounts[index])
    case ManagerLimitAmount(offset) => CommittedLimit(offset)
  }

  function Commit(l: Leaf): (c: Commitment)
    requires Accepted(l)
    ensures c.Valid()
  {
    Commitment(l.program, l.vault, l.strategist, l.version, l.target, l.data[..8], |l.data|, |l.accounts|,
               seq<Item>(|l.operators|, i requires 0 <= i < |l.operators| =>
                         CommitOperator(l.operators[i], l.data, l.accounts)))
  }

  /** Agreement of two calls on everything the policy commits to, field by field. */
  ghost predicate SameCommittedFields(a: Leaf, b: Leaf)
    requires Accepted(a) && Accepted(b)
  {
    && a.program == b.program
    && a.vault == b.vault
    && a.strategist == b.strategist
    && a.version == b.version
    && a.target == b.target
    && a.data[..8] == b.data[..8]
    && |a.data| == |b.data|
    && |a.accounts| == |b.accounts|
    && a.operators == b.operators
    && forall i :: 0 <= i < |a.operators| ==>
         InBounds(a.operators[i], a.data, a.accounts) && InBounds(b.operators[i], b.data, b.accounts) &&
         match a.operators[i]
         case IngestInstruction(offset, length) =>
           a.data[offset..offset + length] == b.data[offset..offset + length]
         case IngestAccount(index) => a.accounts[index] == b.accounts[index]
         case ManagerLimitAmount(offset) => true
  }

  lemma CommitSameFields(a: Leaf, b: Leaf)
    requires Accepted(a) && Accepted(b)
    ensures Commit(a) == Commit(b) <==> SameCommittedFields(a, b)
  {
    if Commit(a) == Commit(b) {
      assert |a.operators| == |Commit(a).items| == |b.operators|;
      forall i | 0 <= i < |a.operators|
        ensures a.operators[i] == b.operators[i]
        ensures CommitOperator(a.operators[i], a.data, a.accounts) == CommitOperator(b.operators[i], b.data, b.accounts)
      {
        assert Commit(a).items[i] == Commit(b).items[i];
      }
      assert a.operators == b.operators;
    }
    if SameCommittedFields(a, b) {
      assert Commit(a).items == Commit(b).items;
    }
  }

  // ---- The hashed byte string ----

  function Flag(b: bool): Byte { if b then 1 else 0 }

  function EncodeItem(i: Item): (s: ByteSeq)
  {
    match i
    case CommittedRange(offset, length, bytes) => [0] + LittleEndian(offset, 2) + LittleEndian(length, 2) + bytes
    case CommittedAccount(index, a) => [1, index] + a.address + [Flag(a.isSigner), Flag(a.isWritable)]
    case CommittedLimit(offset) => [2] + LittleEndian(offset, 2)
  }

  function EncodedItems(items: seq<Item>): (r: seq<ByteSeq>)
    ensures |r| == |items| && forall i :: 0 <= i < |r| ==> r[i] == EncodeItem(items[i])
  {
    seq(|items|, (i: nat) requires i < |items| => EncodeItem(items[i]))
  }

  function HeaderPieces(c: Commitment): (r: seq<ByteSeq>)
  {
    [LEAF_DOMAIN, c.program, c.vault, c.strategist, LittleEndian(c.version, 8), c.target, c.discriminator,
     LittleEndian(c.dataLength, 4), LittleEndian(c.accountCount, 2), [|c.items| % 0x100]]
  }

  /** The byte string that is hashed for a commitment. */
  function Encode(c: Commitment): (s: ByteSeq)
  {
    Flatten(HeaderPieces(c)) + Flatten(EncodedItems(c.items))
  }

  /** An item can be read off the front of a byte string in one way only. */
  lemma ItemPrefixFree(i: Item, j: Item, s: ByteSeq, t: ByteSeq)
    requires i.Valid() && j.Valid()
    requires EncodeItem(i) + s == EncodeItem(j) + t
    ensures i == j && s == t
  {
    assert (EncodeItem(i) + s)[0] == EncodeItem(i)[0] && (EncodeItem(j) + t)[0] == EncodeItem(j)[0];
    match i {
      case CommittedRange(offset, length, bytes) => RangePrefixFree(i, j, s, t);
      case CommittedAccount(index, account) =>
        AppendCancel(EncodeItem(i), EncodeItem(j), s, t);
        AccountInjective(i, j);
      case CommittedLimit(offset) =>
        AppendCancel(EncodeItem(i), EncodeItem(j), s, t);
        AppendCancel([2], [2], LittleEndian(i.limitOffset, 2), LittleEndian(j.limitOffset, 2));
        WidthBounds();
        LittleEndianInjective(i.limitOffset, j.limitOffset, 2);
    }
  }

  lemma AccountInjective(i: Item, j: Item)
    requires i.CommittedAccount? && j.CommittedAccount? && EncodeItem(i) == EncodeItem(j)
    ensures i == j
  {
    var a, b := EncodeItem(i), EncodeItem(j);
    assert i.account.address == a[2..34] && j.account.address == b[2..34];
    assert i.index == a[1] && j.index == b[1];
    assert Flag(i.account.isSigner) == a[34] && Flag(j.account.isSigner) == b[34];
    assert Flag(i.account.isWritable) == a[35] && Flag(j.account.isWritable) == b[35];
  }

  lemma RangePrefixFree(i: Item, j: Item, s: ByteSeq, t: ByteSeq)
    requires i.CommittedRange? && j.CommittedRange? && i.Valid() && j.Valid()
    requires EncodeItem(i) + s == EncodeItem(j) + t
    ensures i == j && s == t
  {
    ThreeFieldsCancel(LittleEndian(i.offset, 2), LittleEndian(i.length, 2), i.bytes, s,
                      LittleEndian(j.offset, 2), LittleEndian(j.length, 2), j.bytes, t);
    WidthBounds();
    LittleEndianInjective(i.offset, j.offset, 2);
    LittleEndianInjective(i.length, j.length, 2);
    AppendCancel(i.bytes, j.bytes, s, t);
  }

  lemma ThreeFieldsCancel(a: ByteSeq, b: ByteSeq, c: ByteSeq, s: ByteSeq,
                          a': ByteSeq, b': ByteSeq, c': ByteSeq, t: ByteSeq)
    requires |a| == |a'| && |b| == |b'|
    requires [0] + a + b + c + s == [0] + a' + b' + c' + t
    ensures a == a' && b == b' && c + s == c' + t
  {
    assert [0] + a + b + c + s == ([0] + a + b) + (c + s);
    assert [0] + a' + b' + c' + t == ([0] + a' + b') + (c' + t);
    AppendCancel([0] + a + b, [0] + a' + b', c + s, c' + t);
    AppendCancel([0] + a, [0] + a', b, b');
    AppendCancel([0], [0], a, a');
  }

  lemma {:induction false} ItemsInjective(a: seq<Item>, b: seq<Item>)
    requires |a| == |b|
    requires forall k :: 0 <= k < |a| ==> a[k].Valid() && b[k].Valid()
    requires Flatten(EncodedItems(a)) == Flatten(EncodedItems(b))
    ensures a == b
  {
    hide EncodeItem;
    if a != [] {
      assert EncodedItems(a)[1..] == EncodedItems(a[1..]) && EncodedItems(b)[1..] == EncodedItems(b[1..]);
      ItemPrefixFree(a[0], b[0], Flatten(EncodedItems(a[1..])), Flatten(EncodedItems(b[1..])));
      ItemsInjective(a[1..], b[1..]);
      assert a == [a[0]] + a[1..] && b == [b[0]] + b[1..];
    }
  }

  lemma {:induction false} FlattenLength(a: seq<ByteSeq>, b: seq<ByteSeq>)
    requires |a| == |b| && forall i :: 0 <= i < |a| ==> |a[i]| == |b[i]|
    ensures |Flatten(a)| == |Flatten(b)|
  {
    if a != [] {
      FlattenLength(a[1..], b[1..]);
    }
  }

  lemma EncodeInjective(a: Commitment, b: Commitment)
    requires a.Valid() && b.Valid() && Encode(a) == Encode(b)
    ensures a == b
  {
    hide Flatten, LittleEndian, EncodedItems;
    var p, q := HeaderPieces(a), HeaderPieces(b);
    FlattenLength(p, q);
    AppendCancel(Flatten(p), Flatten(q), Flatten(EncodedItems(a.items)), Flatten(EncodedItems(b.items)));
    FlattenInjective(p, q);
    assert p[1] == q[1] && p[2] == q[2] && p[3] == q[3] && p[5] == q[5] && p[6] == q[6];
    WidthBounds();
    assert p[4] == q[4];
    LittleEndianInjective(a.version, b.version, 8);
    assert p[7] == q[7];
    LittleEndianInjective(a.dataLength, b.dataLength, 4);
    assert p[8] == q[8];
    LittleEndianInjective(a.accountCount, b.accountCount, 2);
    assert p[9][0] == q[9][0];
    ItemsInjective(a.items, b.items);
  }

  /** The bytes hashed for an accepted call. */
  function Preimage(l: Leaf): (s: ByteSeq)
    requires Accepted(l)
    ensures LEAF_DOMAIN <= s
  {
    assert HeaderPieces(Commit(l))[0] == LEAF_DOMAIN;
    Encode(Commit(l))
  }

  // ---- Encoding operator by operator ----

  /** The fixed-width fields that precede the operators. */
  function LeafHeader(l: Leaf): (s: ByteSeq)
    requires 8 <= |l.data| <= MAX_INSTRUCTION_DATA_LEN && |l.accounts| <= MAX_CPI_ACCOUNTS
    requires |l.operators| <= MAX_POLICY_OPERATORS
  {
    Flatten([LEAF_DOMAIN, l.program, l.vault, l.strategist, LittleEndian(l.version, 8), l.target, l.data[..8],
             LittleEndian(|l.data|, 4), LittleEndian(|l.accounts|, 2), [|l.operators|]])
  }

  ghost predicate Clean(l: Leaf, k: nat)
  {
    && k <= |l.operators|
    && OperatorsError(l.operators[..k], l.data, l.accounts).None?
    && forall j :: 0 <= j < k ==> InBounds(l.operators[j], l.data, l.accounts)
  }

  /** The bytes of the first `k` operators. */
  ghost function OperatorBytes(l: Leaf, k: nat): (s: ByteSeq)
    requires Clean(l, k)
  {
    if k == 0 then []
    else
      CleanBefore(l, k - 1);
      OperatorBytes(l, k - 1) + EncodeItem(CommitOperator(l.operators[k - 1], l.data, l.accounts))
  }

  lemma CleanBefore(l: Leaf, k: nat)
    requires Clean(l, k + 1)
    ensures Clean(l, k)
  {
    assert l.operators[..k + 1][..k] == l.operators[..k];
  }

  lemma CleanNext(l: Leaf, k: nat)
    requires Clean(l, k) && k < |l.operators|
    requires OperatorError(l.operators[..k], l.operators[k], l.data, l.accounts).None?
    ensures Clean(l, k + 1)
  {
    assert l.operators[..k + 1][..k] == l.operators[..k];
  }

  lemma CleanStops(l: Leaf, k: nat, e: HashError)
    requires Clean(l, k) && k < |l.operators|
    requires OperatorError(l.operators[..k], l.operators[k], l.data, l.accounts) == Some(e)
    ensures OperatorsError(l.operators, l.data, l.accounts) == Some(e)
  {
    assert l.operators[..k + 1][..k] == l.operators[..k];
    ErrorOfPrefix(l.operators, k + 1, l.data, l.accounts);
  }

  lemma EncodedItemsSnoc(items: seq<Item>, k: nat)
    requires k < |items|
    ensures Flatten(EncodedItems(items[..k + 1])) == Flatten(EncodedItems(items[..k])) + EncodeItem(items[k])
  {
    assert EncodedItems(items[..k + 1]) == EncodedItems(items[..k]) + [EncodeItem(items[k])];
    FlattenSnoc(EncodedItems(items[..k]), EncodeItem(items[k]));
  }

  lemma {:induction false} OperatorBytesOfItems(l: Leaf, k: nat)
    requires Accepted(l) && Clean(l, k)
    ensures OperatorBytes(l, k) == Flatten(EncodedItems(Commit(l).items[..k]))
  {
    var items := Commit(l).items;
    if k == 0 {
      assert EncodedItems(items[..0]) == [];
    } else {
      CleanBefore(l, k - 1);
      OperatorBytesOfItems(l, k - 1);
      EncodedItemsSnoc(items, k - 1);
    }
  }

  lemma CleanFinished(l: Leaf)
    requires Clean(l, |l.operators|)
    requires 8 <= |l.data| <= MAX_INSTRUCTION_DATA_LEN && |l.accounts| <= MAX_CPI_ACCOUNTS
    requires |l.operators| <= MAX_POLICY_OPERATORS
    ensures Accepted(l) && Preimage(l) == LeafHeader(l) + OperatorBytes(l, |l.operators|)
  {
    assert l.operators[..|l.operators|] == l.operators;
    RefusedIffNotAccepted(l);
    HeaderOfLeaf(l);
    OperatorBytesOfItems(l, |l.operators|);
    assert Commit(l).items[..|l.operators|] == Commit(l).items;
  }

  lemma HeaderOfLeaf(l: Leaf)
    requires Accepted(l)
    ensures LeafHeader(l) == Flatten(HeaderPieces(Commit(l)))
  {
    var p := [LEAF_DOMAIN, l.program, l.vault, l.strategist, LittleEndian(l.version, 8), l.target, l.data[..8],
              LittleEndian(|l.data|, 4), LittleEndian(|l.accounts|, 2), [|l.operators|]];
    assert p == HeaderPieces(Commit(l));
  }

  /**
   Unique decodability: two accepted calls are hashed from the same bytes exactly when they agree on
   every committed field, so no call can pass for one that differs in what was committed.
   */
  lemma UniquelyDecodable(a: Leaf, b: Leaf)
    requires Accepted(a) && Accepted(b)
    ensures Preimage(a) == Preimage(b) <==> SameCommittedFields(a, b)
  {
    CommitSameFields(a, b);
    if Preimage(a) == Preimage(b) {
      EncodeInjective(Commit(a), Commit(b));
    }
  }

  // ---- Which byte is which ----

  /** Where the fixed fields of a call stand in its string, ahead of the operators' items. */
  lemma PreimageLayout(l: Leaf)
    requires Accepted(l)
    ensures var s := Preimage(l);
            && |s| >= 189
            && s[..38] == LEAF_DOMAIN
            && s[38..70] == l.program && s[70..102] == l.vault && s[102..134] == l.strategist
            && LittleEndianValue(s[134..142]) == l.version
            && s[142..174] == l.target && s[174..182] == l.data[..8]
            && LittleEndianValue(s[182..186]) == |l.data| && LittleEndianValue(s[186..188]) == |l.accounts|
            && s[188] == |l.operators|
            && s[189..] == Flatten(EncodedItems(Commit(l).items))
  {
    hide LittleEndian, EncodedItems, Flatten, LittleEndianValue;
    var c := Commit(l);
    var p := HeaderPieces(c);
    DomainsDiffer();
    WidthBounds();
    LittleEndianRoundTrip(l.version, 8);
    LittleEndianRoundTrip(|l.data|, 4);
    LittleEndianRoundTrip(|l.accounts|, 2);
    TenPieces(p);
    var first, second := p[0] + p[1] + p[2] + p[3] + p[4], p[5] + p[6] + p[7] + p[8] + p[9];
    assert |first| == 142 && |second| == 47;
    var s := Preimage(l);
    assert s == first + second + Flatten(EncodedItems(c.items));
    assert s[..142] == first && s[142..189] == second;
    FirstHalf(p, s);
    SecondHalf(p, s);
  }

  lemma TenPieces(p: seq<ByteSeq>)
    requires |p| == 10
    ensures Flatten(p) == (p[0] + p[1] + p[2] + p[3] + p[4]) + (p[5] + p[6] + p[7] + p[8] + p[9])
  {
    FivePieces(p[..5]);
    FivePieces(p[5..]);
    assert p == p[..5] + p[5..];
    FlattenAppend(p[..5], p[5..]);
  }

  lemma FivePieces(p: seq<ByteSeq>)
    requires |p| == 5
    ensures Flatten(p) == p[0] + p[1] + p[2] + p[3] + p[4]
  {
    assert p[5..] == [] && Flatten(p[5..]) == [];
    assert p[4..][1..] == p[5..] && p[3..][1..] == p[4..] && p[2..][1..] == p[3..] && p[1..][1..] == p[2..];
    assert Flatten(p[4..]) == p[4];
    assert Flatten(p[3..]) == p[3] + p[4];
    assert Flatten(p[2..]) == p[2] + (p[3] + p[4]);
    assert Flatten(p[1..]) == p[1] + (p[2] + (p[3] + p[4]));
  }

  lemma FirstHalf(p: seq<ByteSeq>, s: ByteSeq)
    requires |p| == 10 && |p[0]| == 38 && |p[1]| == |p[2]| == |p[3]| == 32 && |p[4]| == 8 && |s| >= 142
    requires s[..142] == p[0] + p[1] + p[2] + p[3] + p[4]
    ensures s[..38] == p[0] && s[38..70] == p[1] && s[70..102] == p[2] && s[102..134] == p[3] && s[134..142] == p[4]
  {
    var t := s[..142];
    assert t[..38] == p[0] && t[38..70] == p[1] && t[70..102] == p[2] && t[102..134] == p[3] && t[134..142] == p[4];
  }

  lemma SecondHalf(p: seq<ByteSeq>, s: ByteSeq)
    requires |p| == 10 && |p[5]| == 32 && |p[6]| == 8 && |p[7]| == 4 && |p[8]| == 2 && |p[9]| == 1 && |s| >= 189
    requires s[142..189] == p[5] + p[6] + p[7] + p[8] + p[9]
    ensures s[142..174] == p[5] && s[174..182] == p[6] && s[182..186] == p[7] && s[186..188] == p[8] && s[188] == p[9][0]
  {
    var t := s[142..189];
    assert t[..32] == p[5] && t[32..40] == p[6] && t[40..44] == p[7] && t[44..46] == p[8] && t[46] == p[9][0];
    SliceOfSlice(s, 142, 189, 0, 32);
    SliceOfSlice(s, 142, 189, 32, 40);
    SliceOfSlice(s, 142, 189, 40, 44);
    SliceOfSlice(s, 142, 189, 44, 46);
  }

  lemma SliceOfSlice(s: ByteSeq, from: nat, to: nat, i: nat, j: nat)
    requires i <= j && from + j <= to <= |s|
    ensures s[from..to][i..j] == s[from + i..from + j]
  {
    var t, u := s[from..to][i..j], s[from + i..from + j];
    assert |t| == |u| && forall k :: 0 <= k < |t| ==> t[k] == u[k];
  }

  // ---- Which fault is named ----

  /** What each error of an operator says, and which one comes first. */
  lemma OperatorErrorMeans(before: seq<Operator>, op: Operator, data: ByteSeq, accounts: seq<AccountMeta>)
    ensures var e := OperatorError(before, op, data, accounts);
            var empty := op.IngestInstruction? && op.length == 0;
            var duplicate := op.ManagerLimitAmount? && HasLimit(before);
            && (e == Some(EmptyInstructionRange) <==> empty)
            && (e == Some(DuplicateManagerLimitAmount) <==> duplicate)
            && (e == Some(OperatorOutOfBounds) <==> !empty && !duplicate && !InBounds(op, data, accounts))
            && (e == Some(IngestionLimitExceeded) <==>
                && op.IngestInstruction? && InBounds(op, data, accounts)
                && IngestedBytes(before + [op]) > MAX_INGESTED_INSTRUCTION_BYTES)
  {
    assert (before + [op])[..|before|] == before;
  }

  /** Sizes are refused before operators are looked at: data, accounts, operators, in this order. */
  lemma RefusalOfSizes(l: Leaf)
    ensures Refusal(l) == Some(InvalidInstructionData) <==> !(8 <= |l.data| <= 1024)
    ensures Refusal(l) == Some(TooManyAccounts) <==> 8 <= |l.data| <= 1024 && |l.accounts| > 64
    ensures Refusal(l) == Some(TooManyOperators)
       <==> 8 <= |l.data| <= 1024 && |l.accounts| <= 64 && |l.operators| > 32
  {
    OperatorErrorsOnly(l.operators, l.data, l.accounts);
  }

  lemma {:induction false} OperatorErrorsOnly(ops: seq<Operator>, data: ByteSeq, accounts: seq<AccountMeta>)
    ensures var e := OperatorsError(ops, data, accounts);
            e != Some(InvalidInstructionData) && e != Some(TooManyAccounts) && e != Some(TooManyOperators)
  {
    if ops != [] {
      OperatorErrorsOnly(ops[..|ops| - 1], data, accounts);
    }
  }

  /** Where the parts of an operator's item stand. */
  lemma ItemLayout(op: Operator, data: ByteSeq, accounts: seq<AccountMeta>)
    requires InBounds(op, data, accounts)
    ensures var s := EncodeItem(CommitOperator(op, data, accounts));
            match op
            case IngestInstruction(offset, length) =>
              && |s| == 5 + length && s[0] == 0
              && LittleEndianValue(s[1..3]) == offset && LittleEndianValue(s[3..5]) == length
              && s[5..] == data[offset..offset + length]
            case IngestAccount(index) =>
              && |s| == 36 && s[0] == 1 && s[1] == index && s[2..34] == accounts[index].address
              && s[34] == (if accounts[index].isSigner then 1 else 0)
              && s[35] == (if accounts[index].isWritable then 1 else 0)
            case ManagerLimitAmount(offset) => |s| == 3 && s[0] == 2 && LittleEndianValue(s[1..]) == offset
  {
    hide LittleEndian, LittleEndianValue;
    var s := EncodeItem(CommitOperator(op, data, accounts));
    WidthBounds();
    match op {
      case IngestInstruction(offset, length) =>
        LittleEndianRoundTrip(offset, 2);
        LittleEndianRoundTrip(length, 2);
        assert s[1..3] == LittleEndian(offset, 2) && s[3..5] == LittleEndian(length, 2);
      case IngestAccount(index) =>
      case ManagerLimitAmount(offset) =>
        LittleEndianRoundTrip(offset, 2);
        assert s[1..] == LittleEndian(offset, 2);
    }
  }
}
