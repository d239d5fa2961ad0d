/**
 The TLV region behind a vault account: the program that writes extensions into it and looks them
 up, and the web app that reads them all back.
 */
module VaultTlv {
  import opened Arithmetic
  import opened Bytes
  import opened VaultMath
  import opened Wrappers

  const TLV_HEADER_SIZE := 4
  const VAULT_BASE_LEN := 272

  datatype ExtensionType =
    | DepositFeeType | WithdrawalFeeType | PausableSubscriptionsType | PausableRedemptionsType
    | SubscriptionQueueType | RedemptionQueueType | MinSubscriptionType | MinRedemptionType
    | ExternallyManagedWithdrawalsType | InstantSettlementType

  function Discriminant(t: ExtensionType): (n: U16)
    ensures n > 0
  {
    match t
    case DepositFeeType => 1
    case WithdrawalFeeType => 2
    case PausableSubscriptionsType => 3
    case PausableRedemptionsType => 4
    case SubscriptionQueueType => 5
    case RedemptionQueueType => 6
    case MinSubscriptionType => 7
    case MinRedemptionType => 8
    case ExternallyManagedWithdrawalsType => 9
    case InstantSettlementType => 10
  }

  function DataLength(t: ExtensionType): (n: U16)
  {
    match t
    case DepositFeeType => 9
    case WithdrawalFeeType => 9
    case PausableSubscriptionsType => 1
    case PausableRedemptionsType => 1
    case ExternallyManagedWithdrawalsType => 1
    case InstantSettlementType => 56
    case SubscriptionQueueType => 16
    case RedemptionQueueType => 16
    case MinSubscriptionType => 8
    case MinRedemptionType => 8
  }

  // ---- Entries and their bytes ----

  datatype Entry = Entry(kind: U16, value: ByteSeq)

  ghost predicate WellFormed(es: seq<Entry>)
  {
    forall i :: 0 <= i < |es| ==> es[i].kind > 0 && |es[i].value| < 0x1_0000
  }

  function EncodeEntry(e: Entry): (s: ByteSeq)
    ensures |s| == TLV_HEADER_SIZE + |e.value|
  {
    LittleEndian(e.kind, 2) + LittleEndian(|e.value|, 2) + e.value
  }

  function EncodeEntries(es: seq<Entry>): ByteSeq
  {
    if es == [] then [] else EncodeEntry(es[0]) + EncodeEntries(es[1..])
  }

  function ZeroBytes(k: nat): (s: ByteSeq)
    ensures |s| == k && forall i :: 0 <= i < k ==> s[i] == 0
  {
    if k == 0 then [] else [0] + ZeroBytes(k - 1)
  }

  function EntryKind(t: ByteSeq): nat
    requires |t| >= TLV_HEADER_SIZE
  {
    LittleEndianValue(t[..2])
  }

  function EntryEnd(t: ByteSeq): (n: nat)
    requires |t| >= TLV_HEADER_SIZE
    ensures n >= TLV_HEADER_SIZE
  {
    TLV_HEADER_SIZE + LittleEndianValue(t[2..4])
  }

  /** What a reader sees at the start of an encoded entry. */
  lemma HeadEntry(e: Entry, rest: ByteSeq)
    requires |e.value| < 0x1_0000
    ensures var t := EncodeEntry(e) + rest; var n := TLV_HEADER_SIZE + |e.value|;
            && EntryKind(t) == e.kind && EntryEnd(t) == n <= |t|
            && t[TLV_HEADER_SIZE..n] == e.value && t[n..] == rest
  {
    var t := EncodeEntry(e) + rest;
    WidthBounds();
    LittleEndianRoundTrip(e.kind, 2);
    LittleEndianRoundTrip(|e.value|, 2);
    assert t[..2] == LittleEndian(e.kind, 2) && t[2..4] == LittleEndian(|e.value|, 2);
  }

  lemma HeadZeros(k: nat)
    requires k >= TLV_HEADER_SIZE
    ensures EntryKind(ZeroBytes(k)) == 0 && EntryEnd(ZeroBytes(k)) == TLV_HEADER_SIZE
    ensures ZeroBytes(k)[TLV_HEADER_SIZE..] == ZeroBytes(k - TLV_HEADER_SIZE)
  {
    var z := ZeroBytes(k);
    assert z[..2] == [0, 0] && z[2..4] == [0, 0];
    assert LittleEndianValue([0, 0]) == 0 by { assert [0, 0][1..] == [0] && [0][1..] == []; }
  }

  lemma {:induction false} EncodeEntriesAppend(a: seq<Entry>, b: seq<Entry>)
    ensures EncodeEntries(a + b) == EncodeEntries(a) + EncodeEntries(b)
  {
    if a == [] {
      assert a + b == b;
    } else {
      assert (a + b)[1..] == a[1..] + b;
      EncodeEntriesAppend(a[1..], b);
    }
  }

  // ---- The web parser ----

  datatype ParsedFee = PercentageFee(bps: U16) | FixedFee(amount: U64)

  datatype ParsedExtension =
    | DepositFee(fee: ParsedFee)
    | WithdrawalFee(fee: ParsedFee)
    | PausableSubscriptions(paused: bool)
    | PausableRedemptions(paused: bool)
    | SubscriptionQueue(head: U64, tail: U64)
    | RedemptionQueue(head: U64, tail: U64)
    | MinSubscription(threshold: U64)
    | MinRedemption(threshold: U64)

  /** Thrown by a `DataView` read past the end of the value. */
  datatype ReadError = RangeError

  function ReadU64(v: ByteSeq, offset: nat): Result<U64, ReadError>
  {
    if offset + 8 > |v| then Err(RangeError)
    else
      LittleEndianOfValue(v[offset..offset + 8]);
      WidthBounds();
      Ok(LittleEndianValue(v[offset..offset + 8]))
  }

  function ReadU16(v: ByteSeq, offset: nat): Result<U16, ReadError>
  {
    if offset + 2 > |v| then Err(RangeError)
    else
      LittleEndianOfValue(v[offset..offset + 2]);
      WidthBounds();
      Ok(LittleEndianValue(v[offset..offset + 2]))
  }

  /** Any discriminant other than one is taken for a fixed amount. */
  function ParseFee(v: ByteSeq): Result<ParsedFee, ReadError>
  {
    if |v| == 0 then Err(RangeError)
    else if v[0] == 1 then
      var bps := ReadU16(v, 1);
      if bps.Err? then Err(bps.error) else Ok(PercentageFee(bps.value))
    else
      var amount := ReadU64(v, 1);
      if amount.Err? then Err(amount.error) else Ok(FixedFee(amount.value))
  }

  function ParseFlag(v: ByteSeq): Result<bool, ReadError>
  {
    if |v| == 0 then Err(RangeError) else Ok(v[0] == 1)
  }

  /** One entry's extension; `None` for a type the web app does not know. */
  function ParseValue(kind: nat, v: ByteSeq): Result<Option<ParsedExtension>, ReadError>
  {
    if kind == 1 || kind == 2 then
      var fee := ParseFee(v);
      if fee.Err? then Err(fee.error)
      else Ok(Some(if kind == 1 then DepositFee(fee.value) else WithdrawalFee(fee.value)))
    else if kind == 3 || kind == 4 then
      var paused := ParseFlag(v);
      if paused.Err? then Err(paused.error)
      else Ok(Some(if kind == 3 then PausableSubscriptions(paused.value) else PausableRedemptions(paused.value)))
    else if kind == 5 || kind == 6 then
      var head := ReadU64(v, 0);
      var tail := ReadU64(v, 8);
      if head.Err? then Err(head.error)
      else if tail.Err? then Err(tail.error)
      else Ok(Some(if kind == 5 then SubscriptionQueue(head.value, tail.value) else RedemptionQueue(head.value, tail.value)))
    else if kind == 7 || kind == 8 then
      var threshold := ReadU64(v, 0);
      if threshold.Err? then Err(threshold.error)
      else Ok(Some(if kind == 7 then MinSubscription(threshold.value) else MinRedemption(threshold.value)))
    else Ok(None)
  }

  function Found(e: Option<ParsedExtension>): seq<ParsedExtension>
  {
    if e.Some? then [e.value] else []
  }

  function Prepend(front: seq<ParsedExtension>, r: Result<seq<ParsedExtension>, ReadError>): Result<seq<ParsedExtension>, ReadError>
  {
    if r.Err? then r else Ok(front + r.value)
  }

  /** Reading a region from its start: stop at type zero, at a cut-off entry, or at the end. */
  function ParseTlv(t: ByteSeq): Result<seq<ParsedExtension>, ReadError>
    decreases |t|
  {
    if |t| < TLV_HEADER_SIZE || EntryKind(t) == 0 || EntryEnd(t) > |t| then Ok([])
    else
      var first := ParseValue(EntryKind(t), t[TLV_HEADER_SIZE..EntryEnd(t)]);
      if first.Err? then Err(first.error)
      else Prepend(Found(first.value), ParseTlv(t[EntryEnd(t)..]))
  }

  /** One turn of the loop, at an offset. */
  lemma ParseStep(t: ByteSeq, offset: nat)
    requires offset + TLV_HEADER_SIZE <= |t|
    ensures var kind := LittleEndianValue(t[offset..offset + 2]);
            var end := offset + TLV_HEADER_SIZE + LittleEndianValue(t[offset + 2..offset + 4]);
            if kind == 0 || end > |t| then ParseTlv(t[offset..]) == Ok([])
            else
              var parsed := ParseValue(kind, t[offset + TLV_HEADER_SIZE..end]);
              ParseTlv(t[offset..]) == if parsed.Err? then Err(parsed.error) else Prepend(Found(parsed.value), ParseTlv(t[end..]))
  {
    hide LittleEndianValue, ParseValue, Prepend, Found;
    var rest := t[offset..];
    HeaderAt(t, offset);
    if EntryEnd(rest) <= |rest| {
      DropTwice(t, offset, EntryEnd(rest));
      assert t[offset + TLV_HEADER_SIZE..offset + EntryEnd(rest)] == rest[TLV_HEADER_SIZE..EntryEnd(rest)];
    }
  }

  /** The cursor loop over an account's bytes; it ends on every input. */
  method ParseExtensions(data: ByteSeq) returns (r: Result<seq<ParsedExtension>, ReadError>)
    ensures |data| <= VAULT_BASE_LEN ==> r == Ok([])
    ensures |data| > VAULT_BASE_LEN ==> r == ParseTlv(data[VAULT_BASE_LEN..])
  {
    if |data| <= VAULT_BASE_LEN {
      return Ok([]);
    }
    hide ParseTlv, LittleEndianValue, ParseValue, Found;
    var tlv := data[VAULT_BASE_LEN..];
    var out: seq<ParsedExtension> := [];
    var offset := 0;
    assert tlv[0..] == tlv;
    PrependNothing(ParseTlv(tlv));
    while offset + TLV_HEADER_SIZE <= |tlv|
      invariant 0 <= offset <= |tlv|
      invariant ParseTlv(tlv) == Prepend(out, ParseTlv(tlv[offset..]))
      decreases |tlv| - offset
    {
      ParseStep(tlv, offset);
      var rawType := LittleEndianValue(tlv[offset..offset + 2]);
      var len := LittleEndianValue(tlv[offset + 2..offset + 4]);
      var valueStart := offset + TLV_HEADER_SIZE;
      var valueEnd := valueStart + len;
      if rawType == 0 || valueEnd > |tlv| {
        break;
      }
      var parsed := ParseValue(rawType, tlv[valueStart..valueEnd]);
      if parsed.Err? {
        return Err(parsed.error);
      }
      PrependTwice(out, Found(parsed.value), ParseTlv(tlv[valueEnd..]));
      out := out + Found(parsed.value);
      offset := valueEnd;
    }
    if offset + TLV_HEADER_SIZE > |tlv| {
      ParseShort(tlv[offset..]);
    }
    assert out + [] == out;
    return Ok(out);
  }

  lemma ParseShort(t: ByteSeq)
    requires |t| < TLV_HEADER_SIZE
    ensures ParseTlv(t) == Ok([])
  {
  }

  lemma PrependNothing(r: Result<seq<ParsedExtension>, ReadError>)
    ensures Prepend([], r) == r
  {
    if r.Ok? {
      assert [] + r.value == r.value;
    }
  }

  lemma PrependTwice(a: seq<ParsedExtension>, b: seq<ParsedExtension>, r: Result<seq<ParsedExtension>, ReadError>)
    ensures Prepend(a, Prepend(b, r)) == Prepend(a + b, r)
  {
    if r.Ok? {
      assert a + (b + r.value) == (a + b) + r.value;
    }
  }

  // ---- Parsing inverts encoding ----

  /** What reading complete entries one by one gives: the known ones in order, or a read error. */
  function ParseEntries(es: seq<Entry>): Result<seq<ParsedExtension>, ReadError>
  {
    if es == [] then Ok([])
    else
      var first := ParseValue(es[0].kind, es[0].value);
      if first.Err? then Err(first.error) else Prepend(Found(first.value), ParseEntries(es[1..]))
  }

  /** Parsing distributes over a front of complete entries, whatever bytes follow. */
  lemma {:induction false} ParseAfterEntries(es: seq<Entry>, rest: ByteSeq)
    requires WellFormed(es)
    ensures ParseTlv(EncodeEntries(es) + rest)
         == if ParseEntries(es).Err? then ParseEntries(es) else Prepend(ParseEntries(es).value, ParseTlv(rest))
  {
    if es == [] {
      assert EncodeEntries(es) + rest == rest;
      PrependNothing(ParseTlv(rest));
    } else {
      var more := EncodeEntries(es[1..]) + rest;
      assert EncodeEntries(es) + rest == EncodeEntry(es[0]) + more;
      HeadEntry(es[0], more);
      ParseAfterEntries(es[1..], rest);
      var first := ParseValue(es[0].kind, es[0].value);
      if first.Ok? && ParseEntries(es[1..]).Ok? {
        PrependTwice(Found(first.value), ParseEntries(es[1..]).value, ParseTlv(rest));
      }
    }
  }

  /**
   Parsing inverts encoding: behind the base account, any list of complete entries followed by zero
   padding of any length reads back as exactly its known entries in order.
   */
  lemma ParseInvertsEncode(es: seq<Entry>, padding: nat)
    requires WellFormed(es)
    ensures ParseTlv(EncodeEntries(es) + ZeroBytes(padding)) == ParseEntries(es)
  {
    ParseAfterEntries(es, ZeroBytes(padding));
    if padding >= TLV_HEADER_SIZE {
      HeadZeros(padding);
    }
    if ParseEntries(es).Ok? {
      assert ParseEntries(es).value + [] == ParseEntries(es).value;
    }
  }

  /** A value is readable exactly when it is as long as the reads of its type need. */
  predicate LongEnough(e: Entry)
  {
    if e.kind == 1 || e.kind == 2 then |e.value| >= 1 && |e.value| >= (if e.value[0] == 1 then 3 else 9)
    else if e.kind == 3 || e.kind == 4 then |e.value| >= 1
    else if e.kind == 5 || e.kind == 6 then |e.value| >= 16
    else if e.kind == 7 || e.kind == 8 then |e.value| >= 8
    else true
  }

  /** Reading throws exactly when some entry's value is too short for its type. */
  lemma {:induction false} ParseThrowsIff(es: seq<Entry>)
    ensures ParseEntries(es).Ok? <==> forall i :: 0 <= i < |es| ==> LongEnough(es[i])
  {
    if es != [] {
      ParseThrowsIff(es[1..]);
      assert ParseValue(es[0].kind, es[0].value).Ok? <==> LongEnough(es[0]);
      assert es == [es[0]] + es[1..];
    }
  }

  // ---- The program's view ----

  /** Offset of the first byte past the last complete entry. */
  function UsedLength(t: ByteSeq): (n: nat)
    ensures n <= |t|
    decreases |t|
  {
    if |t| < TLV_HEADER_SIZE || EntryKind(t) == 0 || EntryEnd(t) > |t| then 0
    else EntryEnd(t) + UsedLength(t[EntryEnd(t)..])
  }

  /** The value of the first entry of a type. Type zero does not stop the search. */
  function Lookup(t: ByteSeq, kind: nat): Option<ByteSeq>
    decreases |t|
  {
    if |t| < TLV_HEADER_SIZE || EntryEnd(t) > |t| then None
    else if EntryKind(t) == kind then Some(t[TLV_HEADER_SIZE..EntryEnd(t)])
    else Lookup(t[EntryEnd(t)..], kind)
  }

  /** Where the value of the first entry of a type starts. */
  function SlotStart(t: ByteSeq, kind: nat): (r: Option<nat>)
    ensures r.Some? <==> Lookup(t, kind).Some?
    ensures r.Some? ==> var v := Lookup(t, kind).value;
                        r.value + |v| <= |t| && t[r.value..r.value + |v|] == v
    decreases |t|
  {
    if |t| < TLV_HEADER_SIZE || EntryEnd(t) > |t| then None
    else if EntryKind(t) == kind then Some(TLV_HEADER_SIZE)
    else
      var later := SlotStart(t[EntryEnd(t)..], kind);
      if later.None? then None else Some(EntryEnd(t) + later.value)
  }

  /** The header of an entry at an offset, seen from the entry's own start. */
  lemma HeaderAt(t: ByteSeq, offset: nat)
    requires offset + TLV_HEADER_SIZE <= |t|
    ensures t[offset..][..2] == t[offset..offset + 2] && t[offset..][2..4] == t[offset + 2..offset + 4]
  {
  }

  lemma DropTwice(t: ByteSeq, a: nat, b: nat)
    requires a + b <= |t|
    ensures t[a..][b..] == t[a + b..]
  {
  }

  /** The type and the length in the header at an offset. */
  method ReadHeader(tlv: array<Byte>, offset: nat) returns (entryType: nat, entryLen: nat)
    requires offset + TLV_HEADER_SIZE <= tlv.Length
    ensures entryType == LittleEndianValue(tlv[..][offset..offset + 2])
    ensures entryLen == LittleEndianValue(tlv[..][offset + 2..offset + 4])
  {
    hide LittleEndianValue;
    assert tlv[offset..offset + 2] == tlv[..][offset..offset + 2];
    assert tlv[offset + 2..offset + 4] == tlv[..][offset + 2..offset + 4];
    entryType := LittleEndianValue(tlv[offset..offset + 2]);
    entryLen := LittleEndianValue(tlv[offset + 2..offset + 4]);
  }

  method TlvUsedLen(tlv: array<Byte>) returns (offset: nat)
    ensures offset == UsedLength(tlv[..])
  {
    offset := 0;
    assert tlv[..][0..] == tlv[..];
    while offset + TLV_HEADER_SIZE <= tlv.Length
      invariant 0 <= offset <= tlv.Length
      invariant UsedLength(tlv[..]) == offset + UsedLength(tlv[..][offset..])
      decreases tlv.Length - offset
    {
      hide LittleEndianValue;
      ghost var rest := tlv[..][offset..];
      HeaderAt(tlv[..], offset);
      var entryType, entryLen := ReadHeader(tlv, offset);
      if entryType == 0 {
        break;
      }
      var next := offset + TLV_HEADER_SIZE + entryLen;
      if next > tlv.Length {
        break;
      }
      DropTwice(tlv[..], offset, EntryEnd(rest));
      offset := next;
    }
  }

  function Shifted(start: Option<nat>, distance: nat): Option<nat>
  {
    if start.None? then None else Some(distance + start.value)
  }

  lemma SearchEnd(rest: ByteSeq, kind: nat)
    requires |rest| < TLV_HEADER_SIZE
    ensures Lookup(rest, kind) == None
  {
  }

  /** One turn of a search at an offset. */
  lemma SearchStep(t: ByteSeq, offset: nat, kind: nat)
    requires offset + TLV_HEADER_SIZE <= |t|
    ensures var rest := t[offset..];
            var end := TLV_HEADER_SIZE + LittleEndianValue(t[offset + 2..offset + 4]);
            && (offset + end > |t| ==> Lookup(rest, kind) == None && SlotStart(rest, kind) == None)
            && (offset + end <= |t| ==>
                if LittleEndianValue(t[offset..offset + 2]) == kind then
                  && Lookup(rest, kind) == Some(t[offset + TLV_HEADER_SIZE..offset + end])
                  && SlotStart(rest, kind) == Some(TLV_HEADER_SIZE)
                else
                  var later := SlotStart(t[offset + end..], kind);
                  && Lookup(rest, kind) == Lookup(t[offset + end..], kind)
                  && SlotStart(rest, kind) == Shifted(later, end))
  {
    hide LittleEndianValue;
    HeaderAt(t, offset);
    var rest := t[offset..];
    if EntryEnd(rest) <= |rest| {
      DropTwice(t, offset, EntryEnd(rest));
      assert t[offset + TLV_HEADER_SIZE..offset + EntryEnd(rest)] == rest[TLV_HEADER_SIZE..EntryEnd(rest)];
    }
  }

  method GetExtensionBytes(tlv: array<Byte>, kind: nat) returns (r: Option<ByteSeq>)
    ensures r == Lookup(tlv[..], kind)
  {
    hide Lookup, SlotStart, LittleEndianValue;
    var offset := 0;
    ghost var bytes := tlv[..];
    assert bytes[0..] == bytes;
    while offset + TLV_HEADER_SIZE <= tlv.Length
      invariant 0 <= offset <= tlv.Length
      invariant Lookup(bytes, kind) == Lookup(bytes[offset..], kind)
      decreases tlv.Length - offset
    {
      SearchStep(bytes, offset, kind);
      var entryType, entryLen := ReadHeader(tlv, offset);
      var valueEnd := offset + TLV_HEADER_SIZE + entryLen;
      if valueEnd > tlv.Length {
        return None;
      }
      if entryType == kind {
        return Some(tlv[offset + TLV_HEADER_SIZE..valueEnd]);
      }
      offset := valueEnd;
    }
    SearchEnd(bytes[offset..], kind);
    return None;
  }

  // ---- A region that holds a list of entries ----

  /** The region is the entries, end to end, and zeros after them. */
  ghost predicate Holds(t: ByteSeq, es: seq<Entry>)
  {
    && WellFormed(es)
    && |EncodeEntries(es)| <= |t|
    && t == EncodeEntries(es) + ZeroBytes(|t| - |EncodeEntries(es)|)
  }

  ghost predicate Present(es: seq<Entry>, kind: nat)
  {
    exists i :: 0 <= i < |es| && es[i].kind == kind
  }

  lemma {:induction false} UsedLengthOfEntries(es: seq<Entry>, padding: nat)
    requires WellFormed(es)
    ensures UsedLength(EncodeEntries(es) + ZeroBytes(padding)) == |EncodeEntries(es)|
  {
    if es == [] {
      assert EncodeEntries(es) + ZeroBytes(padding) == ZeroBytes(padding);
      if padding >= TLV_HEADER_SIZE {
        HeadZeros(padding);
      }
    } else {
      var more := EncodeEntries(es[1..]) + ZeroBytes(padding);
      assert EncodeEntries(es) + ZeroBytes(padding) == EncodeEntry(es[0]) + more;
      HeadEntry(es[0], more);
      UsedLengthOfEntries(es[1..], padding);
    }
  }

  lemma {:induction false} LookupInZeros(k: nat, kind: nat)
    requires kind > 0
    ensures Lookup(ZeroBytes(k), kind) == None
  {
    if k >= TLV_HEADER_SIZE {
      HeadZeros(k);
      LookupInZeros(k - TLV_HEADER_SIZE, kind);
    }
  }

  /** Looking a type up finds the value of its first entry, and nothing when there is none. */
  lemma {:induction false} LookupOfEntries(es: seq<Entry>, padding: nat, kind: nat)
    requires WellFormed(es) && kind > 0
    ensures Lookup(EncodeEntries(es) + ZeroBytes(padding), kind) == FirstOf(es, kind)
  {
    if es == [] {
      assert EncodeEntries(es) + ZeroBytes(padding) == ZeroBytes(padding);
      LookupInZeros(padding, kind);
    } else {
      var more := EncodeEntries(es[1..]) + ZeroBytes(padding);
      assert EncodeEntries(es) + ZeroBytes(padding) == EncodeEntry(es[0]) + more;
      HeadEntry(es[0], more);
      LookupOfEntries(es[1..], padding, kind);
    }
  }

  function FirstOf(es: seq<Entry>, kind: nat): (r: Option<ByteSeq>)
    ensures r.Some? <==> Present(es, kind)
  {
    if es == [] then None
    else if es[0].kind == kind then Some(es[0].value)
    else
      assert es == [es[0]] + es[1..];
      FirstOf(es[1..], kind)
  }

  lemma {:induction false} OnlyOneIsFirst(es: seq<Entry>, i: nat)
    requires OneOfEach(es) && i < |es|
    ensures FirstOf(es, es[i].kind) == Some(es[i].value)
  {
    if i > 0 {
      OnlyOneIsFirst(es[1..], i - 1);
    }
  }

  // ---- Writing ----

  datatype TlvError =
    | VaultAlreadyInitialized | ExtensionAlreadyInitialized | InvalidExtensionData | UninitializedExtension
    | SliceOutOfOrder

  /** A value stored in a slot of its type's length, zero-filled. */
  function Padded(value: ByteSeq, length: nat): (v: ByteSeq)
    requires |value| <= length
    ensures |v| == length
  {
    value + ZeroBytes(length - |value|)
  }

  /** A value shorter than its entry stands at the entry's start, and zeros follow it. */
  lemma PaddedBehind(value: ByteSeq, length: nat)
    requires |value| <= length
    ensures value <= Padded(value, length)
    ensures forall i :: |value| <= i < length ==> Padded(value, length)[i] == 0
  {
  }

  function NewEntry(t: ExtensionType, value: ByteSeq): Entry
    requires |value| <= DataLength(t)
  {
    Entry(Discriminant(t), Padded(value, DataLength(t)))
  }

  /** Copies a value into its slot and zeroes what is left of the slot. */
  method StoreValue(tlv: array<Byte>, valueStart: nat, valueEnd: nat, value: ByteSeq)
    requires valueStart + |value| <= valueEnd <= tlv.Length
    modifies tlv
    ensures tlv[..] == Overwrite(old(tlv[..]), valueStart, Padded(value, valueEnd - valueStart))
  {
    hide Overwrite, ZeroBytes;
    ghost var before := tlv[..];
    CopyInto(tlv, value, valueStart);
    CopyInto(tlv, ZeroBytes(valueEnd - valueStart - |value|), valueStart + |value|);
    OverwriteTwice(before, valueStart, value, ZeroBytes(valueEnd - valueStart - |value|));
  }

  /** Writes one entry at an offset: header, value, and zeros up to the type's length. */
  method WriteExtension(tlv: array<Byte>, writeOffset: nat, t: ExtensionType, value: ByteSeq) returns (r: Result<(), TlvError>)
    modifies tlv
    ensures r.Ok? <==> |value| <= DataLength(t) && writeOffset + TLV_HEADER_SIZE + DataLength(t) <= tlv.Length
    ensures r.Err? ==> r.error == InvalidExtensionData && tlv[..] == old(tlv[..])
    ensures r.Ok? ==> tlv[..] == Overwrite(old(tlv[..]), writeOffset, EncodeEntry(NewEntry(t, value)))
  {
    var dataLen := DataLength(t);
    if !(|value| <= dataLen) {
      return Err(InvalidExtensionData);
    }
    if !(writeOffset + TLV_HEADER_SIZE + dataLen <= tlv.Length) {
      return Err(InvalidExtensionData);
    }
    hide LittleEndian, ZeroBytes, Overwrite, Padded, EncodeEntry;
    ghost var before := tlv[..];
    var kindBytes, lengthBytes := LittleEndian(Discriminant(t), 2), LittleEndian(dataLen, 2);
    CopyInto(tlv, kindBytes, writeOffset);
    CopyInto(tlv, lengthBytes, writeOffset + 2);
    ghost var withHeader := tlv[..];
    OverwriteTwice(before, writeOffset, kindBytes, lengthBytes);
    StoreValue(tlv, writeOffset + TLV_HEADER_SIZE, writeOffset + TLV_HEADER_SIZE + dataLen, value);
    OverwriteTwice(before, writeOffset, kindBytes + lengthBytes, Padded(value, dataLen));
    EncodeNewEntry(t, value);
    return Ok(());
  }

  lemma EncodeNewEntry(t: ExtensionType, value: ByteSeq)
    requires |value| <= DataLength(t)
    ensures EncodeEntry(NewEntry(t, value))
         == LittleEndian(Discriminant(t), 2) + LittleEndian(DataLength(t), 2) + Padded(value, DataLength(t))
  {
  }

  /** Adds an extension that is not there yet, behind the last complete entry, whatever the region holds. */
  method InitVaultExtension(tlv: array<Byte>, vaultInitialized: bool, t: ExtensionType, value: ByteSeq)
    returns (r: Result<(), TlvError>)
    modifies tlv
    ensures vaultInitialized ==> r == Err(VaultAlreadyInitialized)
    ensures !vaultInitialized && old(Lookup(tlv[..], Discriminant(t))).Some? ==> r == Err(ExtensionAlreadyInitialized)
    ensures r.Ok? <==> && !vaultInitialized && old(Lookup(tlv[..], Discriminant(t))).None? && |value| <= DataLength(t)
                       && old(UsedLength(tlv[..])) + TLV_HEADER_SIZE + DataLength(t) <= tlv.Length
    ensures r.Err? ==> tlv[..] == old(tlv[..])
    ensures r.Ok? ==> tlv[..] == Overwrite(old(tlv[..]), old(UsedLength(tlv[..])), EncodeEntry(NewEntry(t, value)))
  {
    hide Overwrite, EncodeEntry, Lookup, UsedLength;
    if vaultInitialized {
      return Err(VaultAlreadyInitialized);
    }
    var existing := GetExtensionBytes(tlv, Discriminant(t));
    if existing.Some? {
      return Err(ExtensionAlreadyInitialized);
    }
    var writeOffset := TlvUsedLen(tlv);
    r := WriteExtension(tlv, writeOffset, t, value);
  }

  /** On a region of entries an initialization adds one entry and keeps the others. */
  lemma InitAddsEntry(t: ByteSeq, es: seq<Entry>, u: ExtensionType, value: ByteSeq)
    requires Holds(t, es) && |value| <= DataLength(u)
    ensures Lookup(t, Discriminant(u)).None? <==> !Present(es, Discriminant(u))
    ensures UsedLength(t) == |EncodeEntries(es)|
    ensures UsedLength(t) + TLV_HEADER_SIZE + DataLength(u) <= |t| ==>
              Holds(Overwrite(t, UsedLength(t), EncodeEntry(NewEntry(u, value))), es + [NewEntry(u, value)])
  {
    hide Overwrite, EncodeEntry, EncodeEntries, ZeroBytes, Lookup, UsedLength;
    LookupOfEntries(es, |t| - |EncodeEntries(es)|, Discriminant(u));
    UsedLengthOfEntries(es, |t| - |EncodeEntries(es)|);
    if UsedLength(t) + TLV_HEADER_SIZE + DataLength(u) <= |t| {
      HoldsOneMore(t, es, NewEntry(u, value));
    }
  }

  lemma HoldsOneMore(t: ByteSeq, es: seq<Entry>, e: Entry)
    requires Holds(t, es) && e.kind > 0 && |e.value| < 0x1_0000
    requires |EncodeEntries(es)| + |EncodeEntry(e)| <= |t|
    ensures Holds(Overwrite(t, |EncodeEntries(es)|, EncodeEntry(e)), es + [e])
  {
    hide ZeroBytes, EncodeEntry;
    EncodeEntriesAppend(es, [e]);
    EncodeOne(e);
    var n, k := |EncodeEntries(es)|, |EncodeEntry(e)|;
    var rest := |t| - n - k;
    ZeroTail(|t| - n, k);
    assert t[n + k..] == ZeroBytes(rest);
    assert Overwrite(t, n, EncodeEntry(e)) == EncodeEntries(es) + EncodeEntry(e) + ZeroBytes(rest);
  }

  lemma EncodeOne(e: Entry)
    ensures EncodeEntries([e]) == EncodeEntry(e)
  {
    assert EncodeEntries([e]) == EncodeEntry(e) + EncodeEntries([e][1..]);
  }

  lemma ZeroTail(k: nat, j: nat)
    requires j <= k
    ensures ZeroBytes(k)[j..] == ZeroBytes(k - j)
  {
  }

  /** The entries with the value of the first one of a type replaced. */
  function Replaced(es: seq<Entry>, kind: nat, value: ByteSeq): (r: seq<Entry>)
  {
    if es == [] then []
    else if es[0].kind == kind then [Entry(es[0].kind, value)] + es[1..]
    else [es[0]] + Replaced(es[1..], kind, value)
  }

  /** The update's search for the slot of a type. */
  method FindSlot(tlv: array<Byte>, kind: nat) returns (r: Option<(nat, nat)>)
    ensures r.None? ==> Lookup(tlv[..], kind).None?
    ensures r.Some? ==> var (start, end) := r.value;
                        && Lookup(tlv[..], kind).Some? && SlotStart(tlv[..], kind) == Some(start)
                        && start + |Lookup(tlv[..], kind).value| == end <= tlv.Length
  {
    hide Lookup, SlotStart, LittleEndianValue;
    var offset := 0;
    ghost var bytes := tlv[..];
    assert bytes[0..] == bytes;
    while offset + TLV_HEADER_SIZE <= tlv.Length
      invariant 0 <= offset <= tlv.Length
      invariant Lookup(bytes, kind) == Lookup(bytes[offset..], kind)
      invariant SlotStart(bytes, kind) == Shifted(SlotStart(bytes[offset..], kind), offset)
      decreases tlv.Length - offset
    {
      SearchStep(bytes, offset, kind);
      var entryType, entryLen := ReadHeader(tlv, offset);
      var valueEnd := offset + TLV_HEADER_SIZE + entryLen;
      if valueEnd > tlv.Length {
        return None;
      }
      if entryType == kind {
        return Some((offset + TLV_HEADER_SIZE, valueEnd));
      }
      offset := valueEnd;
    }
    SearchEnd(bytes[offset..], kind);
    return None;
  }

  /**
   Overwrites the value of an extension in place, whatever the region holds. An entry too short for
   the value makes the program panic, which undoes everything.
   */
  method UpdateExtension(tlv: array<Byte>, t: ExtensionType, newValue: ByteSeq) returns (r: Result<(), TlvError>)
    modifies tlv
    ensures |newValue| > DataLength(t) ==> r == Err(InvalidExtensionData)
    ensures |newValue| <= DataLength(t) ==>
              match old(Lookup(tlv[..], Discriminant(t)))
              case None => r == Err(UninitializedExtension)
              case Some(v) => if |v| < |newValue| then r == Err(SliceOutOfOrder) else r == Ok(())
    ensures r.Err? ==> tlv[..] == old(tlv[..])
    ensures r.Ok? ==> tlv[..] == Updated(old(tlv[..]), Discriminant(t), newValue)
  {
    hide Overwrite, ZeroBytes, Padded, Lookup, SlotStart;
    if !(|newValue| <= DataLength(t)) {
      return Err(InvalidExtensionData);
    }
    var slot := FindSlot(tlv, Discriminant(t));
    if slot.None? {
      return Err(UninitializedExtension);
    }
    var valueStart, valueEnd := slot.value.0, slot.value.1;
    if valueEnd < valueStart + |newValue| {
      return Err(SliceOutOfOrder);
    }
    StoreValue(tlv, valueStart, valueEnd, newValue);
    return Ok(());
  }

  /** The region with the first entry of a type given a new value, zero-filled to the old one's length. */
  function Updated(t: ByteSeq, kind: nat, value: ByteSeq): ByteSeq
    requires Lookup(t, kind).Some? && |value| <= |Lookup(t, kind).value|
  {
    Overwrite(t, SlotStart(t, kind).value, Padded(value, |Lookup(t, kind).value|))
  }

  /** What a search sees at the head of a region of entries. */
  lemma SlotStep(e: Entry, more: ByteSeq, kind: nat)
    requires |e.value| < 0x1_0000
    ensures var t := EncodeEntry(e) + more;
            && SlotStart(t, kind) == (if e.kind == kind then Some(TLV_HEADER_SIZE)
                                      else if SlotStart(more, kind).None? then None
                                      else Some(|EncodeEntry(e)| + SlotStart(more, kind).value))
            && Lookup(t, kind) == if e.kind == kind then Some(e.value) else Lookup(more, kind)
  {
    hide EncodeEntry;
    HeadEntry(e, more);
  }

  lemma ReplacedStep(e: Entry, later: seq<Entry>, kind: nat, value: ByteSeq)
    ensures EncodeEntries(Replaced([e] + later, kind, value))
         == if e.kind == kind then EncodeEntry(Entry(e.kind, value)) + EncodeEntries(later)
            else EncodeEntry(e) + EncodeEntries(Replaced(later, kind, value))
  {
    hide EncodeEntry;
    assert ([e] + later)[1..] == later;
    var r := Replaced([e] + later, kind, value);
    assert r[1..] == if e.kind == kind then later else Replaced(later, kind, value);
  }

  lemma EncodeHead(es: seq<Entry>)
    requires es != []
    ensures EncodeEntries(es) == EncodeEntry(es[0]) + EncodeEntries(es[1..])
  {
  }

  lemma Reassociated(a: ByteSeq, b: ByteSeq, c: ByteSeq)
    ensures (a + b) + c == a + (b + c)
  {
  }

  lemma {:induction false} SlotOfEntries(es: seq<Entry>, padding: nat, kind: nat, value: ByteSeq)
    requires WellFormed(es) && Present(es, kind) && kind > 0 && |value| == |FirstOf(es, kind).value|
    ensures var t := EncodeEntries(es) + ZeroBytes(padding);
            && Lookup(t, kind) == FirstOf(es, kind)
            && Overwrite(t, SlotStart(t, kind).value, value)
               == EncodeEntries(Replaced(es, kind, value)) + ZeroBytes(padding)
  {
    hide ZeroBytes, Overwrite, EncodeEntry, EncodeEntries, Replaced, Lookup, SlotStart;
    var zeros, e, later := ZeroBytes(padding), es[0], es[1..];
    var first, more := EncodeEntry(e), EncodeEntries(later) + zeros;
    assert es == [e] + later;
    EncodeHead(es);
    Reassociated(first, EncodeEntries(later), zeros);
    SlotStep(e, more, kind);
    ReplacedStep(e, later, kind, value);
    if e.kind == kind {
      OverwriteValue(e, value, more);
      Reassociated(EncodeEntry(Entry(e.kind, value)), EncodeEntries(later), zeros);
    } else {
      SlotOfEntries(later, padding, kind, value);
      OverwriteBehind(first, more, SlotStart(more, kind).value, value);
      Reassociated(first, EncodeEntries(Replaced(later, kind, value)), zeros);
    }
  }

  lemma OverwriteValue(e: Entry, value: ByteSeq, more: ByteSeq)
    requires |value| == |e.value|
    ensures Overwrite(EncodeEntry(e) + more, TLV_HEADER_SIZE, value) == EncodeEntry(Entry(e.kind, value)) + more
  {
    hide LittleEndian;
  }

  lemma OverwriteBehind(front: ByteSeq, t: ByteSeq, offset: nat, value: ByteSeq)
    requires offset + |value| <= |t|
    ensures Overwrite(front + t, |front| + offset, value) == front + Overwrite(t, offset, value)
  {
  }

  /** On a region of entries an update replaces one value and keeps everything else. */
  lemma UpdateReplacesValue(t: ByteSeq, es: seq<Entry>, kind: nat, value: ByteSeq)
    requires Holds(t, es) && kind > 0 && Present(es, kind) && |value| <= |FirstOf(es, kind).value|
    ensures Lookup(t, kind) == FirstOf(es, kind)
    ensures Holds(Updated(t, kind, value), Replaced(es, kind, Padded(value, |FirstOf(es, kind).value|)))
  {
    hide EncodeEntries, ZeroBytes, Overwrite, Replaced, Lookup, SlotStart;
    var padded := Padded(value, |FirstOf(es, kind).value|);
    SlotOfEntries(es, |t| - |EncodeEntries(es)|, kind, padded);
    ReplacedLength(es, kind, padded);
  }

  lemma {:induction false} ReplacedLength(es: seq<Entry>, kind: nat, value: ByteSeq)
    requires WellFormed(es) && Present(es, kind) && |value| == |FirstOf(es, kind).value|
    ensures WellFormed(Replaced(es, kind, value))
    ensures |EncodeEntries(Replaced(es, kind, value))| == |EncodeEntries(es)|
  {
    if es[0].kind != kind {
      assert es == [es[0]] + es[1..];
      ReplacedLength(es[1..], kind, value);
    }
  }

  // ---- What the program writes, the web app reads ----

  /** Entries as the program writes them: known types, each at its own length. */
  ghost predicate Sized(es: seq<Entry>)
  {
    forall i :: 0 <= i < |es| ==> exists t :: es[i].kind == Discriminant(t) && |es[i].value| == DataLength(t)
  }

  ghost predicate OneOfEach(es: seq<Entry>)
  {
    forall i, j :: 0 <= i < j < |es| ==> es[i].kind != es[j].kind
  }

  /** Adding an absent type and updating a present one keep the written form. */
  lemma WritingKeepsForm(es: seq<Entry>, t: ExtensionType, value: ByteSeq)
    requires Sized(es) && OneOfEach(es) && |value| <= DataLength(t)
    ensures !Present(es, Discriminant(t)) ==> Sized(es + [NewEntry(t, value)]) && OneOfEach(es + [NewEntry(t, value)])
    ensures var r := Replaced(es, Discriminant(t), Padded(value, DataLength(t)));
            Sized(r) && OneOfEach(r)
  {
    var kind, padded := Discriminant(t), Padded(value, DataLength(t));
    var r := Replaced(es, kind, padded);
    ReplacedKinds(es, kind, padded);
    forall i | 0 <= i < |r| ensures exists u :: r[i].kind == Discriminant(u) && |r[i].value| == DataLength(u) {
      if r[i] == es[i] {
      } else {
        assert r[i].kind == Discriminant(t) && |r[i].value| == DataLength(t);
      }
    }
    if !Present(es, kind) {
      var more := es + [NewEntry(t, value)];
      forall i | 0 <= i < |more| ensures exists u :: more[i].kind == Discriminant(u) && |more[i].value| == DataLength(u) {
        if i < |es| {
          assert more[i] == es[i];
        } else {
          assert more[i].kind == Discriminant(t) && |more[i].value| == DataLength(t);
        }
      }
    }
  }

  lemma {:induction false} ReplacedKinds(es: seq<Entry>, kind: nat, value: ByteSeq)
    ensures var r := Replaced(es, kind, value);
            && |r| == |es|
            && forall i :: 0 <= i < |r| ==> r[i] == es[i] || (r[i].kind == es[i].kind == kind && r[i].value == value)
  {
    if es != [] && es[0].kind != kind {
      ReplacedKinds(es[1..], kind, value);
    }
  }

  /**
   Were both to start at the same byte, the web app would read what the program wrote without an
   error: the eight types it knows, in order. (It starts elsewhere: see `WebReadsWrittenIff`.) The
   program finds every value it wrote.
   */
  lemma SameStartReadable(t: ByteSeq, es: seq<Entry>, i: nat)
    requires Holds(t, es) && Sized(es) && OneOfEach(es) && i < |es|
    ensures ParseTlv(t) == ParseEntries(es) && ParseEntries(es).Ok?
    ensures Lookup(t, es[i].kind) == Some(es[i].value)
  {
    hide ParseTlv, ParseEntries, Lookup, EncodeEntries, ZeroBytes;
    var padding := |t| - |EncodeEntries(es)|;
    ParseInvertsEncode(es, padding);
    ParseThrowsIff(es);
    forall k | 0 <= k < |es| ensures LongEnough(es[k]) {
      var u :| es[k].kind == Discriminant(u) && |es[k].value| == DataLength(u);
    }
    LookupOfEntries(es, padding, es[i].kind);
    OnlyOneIsFirst(es, i);
  }

  // ---- Where the two start reading ----

  /** The program's region starts behind the space of its account structure; the web app starts earlier. */
  const TLV_START := 672

  /** What the web app makes of an account (see `ParseExtensions`). */
  function WebReads(account: ByteSeq): Result<seq<ParsedExtension>, ReadError>
  {
    if |account| <= VAULT_BASE_LEN then Ok([]) else ParseTlv(account[VAULT_BASE_LEN..])
  }

  /** The bytes are complete entries of types the web app does not know, and nothing else. */
  predicate Skipped(s: ByteSeq)
    decreases |s|
  {
    s == [] || (|s| >= TLV_HEADER_SIZE && EntryKind(s) > 8 && EntryEnd(s) <= |s| && Skipped(s[EntryEnd(s)..]))
  }

  lemma HeadSame(s: ByteSeq, t: ByteSeq)
    requires |s| >= TLV_HEADER_SIZE
    ensures EntryKind(s + t) == EntryKind(s) && EntryEnd(s + t) == EntryEnd(s)
    ensures EntryEnd(s) <= |s| ==>
              && (s + t)[TLV_HEADER_SIZE..EntryEnd(s)] == s[TLV_HEADER_SIZE..EntryEnd(s)]
              && (s + t)[EntryEnd(s)..] == s[EntryEnd(s)..] + t
  {
    assert (s + t)[..2] == s[..2] && (s + t)[2..4] == s[2..4];
  }

  lemma {:induction false} SkippedThenRead(s: ByteSeq, t: ByteSeq)
    requires Skipped(s)
    ensures ParseTlv(s + t) == ParseTlv(t)
    decreases |s|
  {
    if s == [] {
      assert s + t == t;
    } else {
      HeadSame(s, t);
      SkippedThenRead(s[EntryEnd(s)..], t);
      PrependNothing(ParseTlv(t));
    }
  }

  /** A region with one switched-off flag of type 3 or 4. */
  function OneFlag(kind: U16): (es: seq<Entry>)
    requires kind == 3 || kind == 4
    ensures WellFormed(es)
  {
    [Entry(kind, [0])]
  }

  lemma OneFlagBytes(kind: U16)
    requires kind == 3 || kind == 4
    ensures EncodeEntries(OneFlag(kind)) == [kind, 0, 1, 0, 0]
    ensures ParseEntries(OneFlag(kind)) == Ok([Flag(kind)])
    ensures Sized(OneFlag(kind)) && OneOfEach(OneFlag(kind))
  {
    var es := OneFlag(kind);
    EncodeOne(es[0]);
    TwoBytes(kind);
    TwoBytes(1);
    assert es[1..] == [] && ParseEntries([]) == Ok([]);
    assert ParseValue(kind, [0]) == Ok(Some(Flag(kind)));
    assert [Flag(kind)] + [] == [Flag(kind)];
    var t := if kind == 3 then PausableSubscriptionsType else PausableRedemptionsType;
    assert es[0].kind == Discriminant(t) && |es[0].value| == DataLength(t);
  }

  function Flag(kind: U16): ParsedExtension
  {
    if kind == 3 then PausableSubscriptions(false) else PausableRedemptions(false)
  }

  lemma TwoBytes(n: Byte)
    ensures LittleEndian(n, 2) == [n, 0]
  {
    assert LittleEndian(n, 2) == [n % 256] + LittleEndian(n / 256, 1);
    assert LittleEndian(0, 1) == [0] + LittleEndian(0, 0);
  }

  lemma TwoByteValue(a: Byte, b: Byte)
    ensures LittleEndianValue([a, b]) == a + 256 * b
  {
    assert [a, b][1..] == [b] && [b][1..] == [];
    assert LittleEndianValue([b]) == b;
  }

  /** At most four bytes cut out of the end of such a region read as nothing. */
  lemma TailOfFlag(kind: Byte, k: nat)
    requires (kind == 3 || kind == 4) && 1 <= k <= 5
    ensures ParseTlv([kind, 0, 1, 0, 0][k..]) == Ok([])
  {
    if k == 1 {
      var rest: ByteSeq := [0, 1, 0, 0];
      assert [kind, 0, 1, 0, 0][k..] == rest;
      assert rest[..2] == [0, 1] && rest[2..4] == [0, 0] && rest[4..] == [];
      TwoByteValue(0, 1);
      TwoByteValue(0, 0);
      assert EntryKind(rest) == 256 && EntryEnd(rest) == 4;
      assert ParseTlv([]) == Ok([]) && ParseValue(256, []) == Ok(None);
      PrependNothing(Ok([]));
    }
  }

  /** A region that the web app misreads behind bytes that are not all skipped. */
  lemma {:induction false} MisreadBehind(s: ByteSeq) returns (es: seq<Entry>)
    requires !Skipped(s)
    ensures WellFormed(es) && Sized(es) && OneOfEach(es)
    ensures ParseTlv(s + EncodeEntries(es)) != ParseEntries(es)
    decreases |s|
  {
    if |s| < TLV_HEADER_SIZE {
      es := OneFlag(4);
      OneFlagBytes(4);
      SplitHeader(s);
    } else if EntryKind(s) == 0 {
      es := OneFlag(4);
      OneFlagBytes(4);
      HeadSame(s, EncodeEntries(es));
    } else if EntryEnd(s) > |s| {
      var kind: U16 := if EntryKind(s) == 3 then 4 else 3;
      es := OneFlag(kind);
      OneFlagBytes(kind);
      SplitValue(s, kind);
    } else if EntryKind(s) <= 8 {
      es := [];
      assert s + EncodeEntries(es) == s;
      KnownIsFound(EntryKind(s), s[TLV_HEADER_SIZE..EntryEnd(s)]);
    } else {
      es := MisreadBehind(s[EntryEnd(s)..]);
      HeadSame(s, EncodeEntries(es));
      PrependNothing(ParseTlv(s[EntryEnd(s)..] + EncodeEntries(es)));
    }
  }

  lemma KnownIsFound(kind: nat, v: ByteSeq)
    requires 1 <= kind <= 8
    ensures ParseValue(kind, v).Ok? ==> |Found(ParseValue(kind, v).value)| == 1
  {
  }

  /** A header that begins in one to three stray bytes swallows the region. */
  lemma SplitHeader(s: ByteSeq)
    requires 0 < |s| < TLV_HEADER_SIZE
    ensures ParseTlv(s + [4, 0, 1, 0, 0]) == Ok([])
  {
    var t := s + [4, 0, 1, 0, 0];
    TwoByteValue(t[2], t[3]);
    assert t[2..4] == [t[2], t[3]];
    assert |s| == 1 ==> t[2] == 0 && t[3] == 1;
    assert |s| == 2 ==> t[2] == 4 && t[3] == 0;
    assert |s| == 3 ==> t[3] == 4;
    assert EntryEnd(t) > |t|;
  }

  /** A value that is cut off in front of the region takes bytes from it. */
  lemma SplitValue(s: ByteSeq, kind: U16)
    requires |s| >= TLV_HEADER_SIZE && EntryKind(s) > 0 && EntryEnd(s) > |s|
    requires (kind == 3 || kind == 4) && EntryKind(s) != kind
    ensures ParseTlv(s + [kind, 0, 1, 0, 0]) != Ok([Flag(kind)])
  {
    hide ParseValue;
    var flag: ByteSeq := [kind, 0, 1, 0, 0];
    var t := s + flag;
    HeadSame(s, flag);
    if EntryEnd(t) <= |t| {
      var first := ParseValue(EntryKind(t), t[TLV_HEADER_SIZE..EntryEnd(t)]);
      assert t[EntryEnd(t)..] == flag[EntryEnd(s) - |s|..];
      TailOfFlag(kind, EntryEnd(s) - |s|);
      NoFlagOfOtherKind(EntryKind(t), t[TLV_HEADER_SIZE..EntryEnd(t)], kind);
      if first.Ok? {
        assert Found(first.value) + [] == Found(first.value);
      }
    }
  }

  lemma NoFlagOfOtherKind(other: nat, v: ByteSeq, kind: U16)
    requires (kind == 3 || kind == 4) && other != kind
    ensures ParseValue(other, v) != Ok(Some(Flag(kind)))
  {
  }

  /** The web app reads every region that the program can write, behind these first bytes of an account. */
  ghost predicate ReadsWritten(base: ByteSeq)
  {
    forall t: ByteSeq, es: seq<Entry> :: Holds(t, es) && Sized(es) && OneOfEach(es) ==> WebReads(base + t) == ParseEntries(es)
  }

  /**
   Whatever the program has written into its region, the web app shows it exactly when the 400 bytes
   of the account structure in front of the region, from the middle of the breaker's address on,
   happen to be complete entries of unknown types.
   */
  lemma WebReadsWrittenIff(base: ByteSeq)
    requires |base| == TLV_START
    ensures ReadsWritten(base) <==> Skipped(base[VAULT_BASE_LEN..])
  {
    hide ParseTlv, ParseEntries, Skipped;
    var s := base[VAULT_BASE_LEN..];
    if Skipped(s) {
      forall t: ByteSeq, es: seq<Entry> | Holds(t, es) && Sized(es) && OneOfEach(es)
        ensures WebReads(base + t) == ParseEntries(es)
      {
        assert (base + t)[VAULT_BASE_LEN..] == s + t;
        SkippedThenRead(s, t);
        ParseInvertsEncode(es, |t| - |EncodeEntries(es)|);
      }
    } else {
      var es := MisreadBehind(s);
      var t := EncodeEntries(es);
      assert t == t + ZeroBytes(0);
      assert Holds(t, es);
      assert (base + t)[VAULT_BASE_LEN..] == s + t;
    }
  }

  /** Two zero bytes where the web app starts hide every extension of the vault. */
  lemma ZerosHideEverything(base: ByteSeq, t: ByteSeq)
    requires |base| == TLV_START && base[VAULT_BASE_LEN] == base[VAULT_BASE_LEN + 1] == 0
    ensures WebReads(base + t) == Ok([])
  {
    var s := (base + t)[VAULT_BASE_LEN..];
    assert s[..2] == [0, 0];
    TwoByteValue(0, 0);
  }

  /** The start of a short threshold there makes the web app throw. */
  lemma ShortThresholdThrows(base: ByteSeq, t: ByteSeq)
    requires |base| == TLV_START && base[VAULT_BASE_LEN..VAULT_BASE_LEN + 4] == [7, 0, 1, 0]
    ensures WebReads(base + t) == Err(RangeError)
  {
    var s := (base + t)[VAULT_BASE_LEN..];
    var head := base[VAULT_BASE_LEN..VAULT_BASE_LEN + 4];
    assert s[..4] == head && s[..2] == head[..2] && s[2..4] == head[2..4];
    assert head[..2] == [7, 0] && head[2..4] == [1, 0];
    TwoByteValue(7, 0);
    TwoByteValue(1, 0);
  }

  // ---- Fees on both sides ----

  /** The nine bytes a fee is stored in. */
  function FeeBytes(fee: FeeType): (s: ByteSeq)
    ensures |s| == 9
  {
    match fee
    case FixedAmount(amount) => [0] + LittleEndian(amount, 8)
    case Percentage(bps) => [1] + LittleEndian(bps, 2) + ZeroBytes(6)
  }

  /** The program's reading of them. */
  function DecodeFee(v: ByteSeq): Result<FeeType, TlvError>
    requires |v| == 9
  {
    LittleEndianOfValue(v[1..9]);
    LittleEndianOfValue(v[1..3]);
    WidthBounds();
    if v[0] == 0 then Ok(FixedAmount(LittleEndianValue(v[1..9])))
    else if v[0] == 1 then Ok(Percentage(LittleEndianValue(v[1..3])))
    else Err(InvalidExtensionData)
  }

  function ShownFee(fee: FeeType): ParsedFee
  {
    match fee
    case FixedAmount(amount) => FixedFee(amount)
    case Percentage(bps) => PercentageFee(bps)
  }

  /** A stored fee is read back as itself by both. */
  lemma FeeRoundTrip(fee: FeeType)
    ensures DecodeFee(FeeBytes(fee)) == Ok(fee)
    ensures ParseFee(FeeBytes(fee)) == Ok(ShownFee(fee))
  {
    var v := FeeBytes(fee);
    WidthBounds();
    match fee {
      case FixedAmount(amount) =>
        assert v[1..9] == LittleEndian(amount, 8);
        LittleEndianRoundTrip(amount, 8);
      case Percentage(bps) =>
        assert v[1..3] == LittleEndian(bps, 2);
        LittleEndianRoundTrip(bps, 2);
    }
  }

  /**
   On arbitrary nine bytes the two readers agree exactly when the discriminant is zero or one; on
   any other the program refuses what the web app shows as a fixed amount.
   */
  lemma FeeReadersAgreeIff(v: ByteSeq)
    requires |v| == 9
    ensures ParseFee(v).Ok?
    ensures v[0] <= 1 <==> DecodeFee(v).Ok? && ParseFee(v) == Ok(ShownFee(DecodeFee(v).value))
    ensures v[0] > 1 ==> DecodeFee(v).Err? && ParseFee(v).value.FixedFee?
  {
  }

  // ---- What the web app shows for each stored extension ----

  /** A stored flag, queue or threshold, as the program lays it out. */
  function FlagBytes(paused: bool): ByteSeq
  {
    [if paused then 1 else 0]
  }

  function QueueBytes(total: U64, lastProcessed: U64): (s: ByteSeq)
    ensures |s| == 16
  {
    LittleEndian(total, 8) + LittleEndian(lastProcessed, 8)
  }

  lemma ParseOne(e: Entry, shown: ParsedExtension)
    requires ParseValue(e.kind, e.value) == Ok(Some(shown))
    ensures ParseEntries([e]) == Ok([shown])
  {
    assert [e][1..] == [] && ParseEntries([]) == Ok([]);
    assert [shown] + [] == [shown];
  }

  lemma ReadStored(v: ByteSeq, offset: nat, n: U64)
    requires offset + 8 <= |v| && v[offset..offset + 8] == LittleEndian(n, 8)
    ensures ReadU64(v, offset) == Ok(n)
  {
    WidthBounds();
    LittleEndianRoundTrip(n, 8);
  }

  /** A stored fee is shown as a fee of its own extension, its own kind and its own number. */
  lemma FeeShown(n: U64, bps: U16)
    ensures ParseEntries([Entry(Discriminant(DepositFeeType), FeeBytes(FixedAmount(n)))]) == Ok([DepositFee(FixedFee(n))])
    ensures ParseEntries([Entry(Discriminant(WithdrawalFeeType), FeeBytes(FixedAmount(n)))]) == Ok([WithdrawalFee(FixedFee(n))])
    ensures ParseEntries([Entry(Discriminant(DepositFeeType), FeeBytes(Percentage(bps)))]) == Ok([DepositFee(PercentageFee(bps))])
    ensures ParseEntries([Entry(Discriminant(WithdrawalFeeType), FeeBytes(Percentage(bps)))])
         == Ok([WithdrawalFee(PercentageFee(bps))])
    ensures DataLength(DepositFeeType) == DataLength(WithdrawalFeeType) == 9
    ensures FeeBytes(FixedAmount(n))[0] == 0 && FeeBytes(Percentage(bps))[0] == 1
  {
    hide ParseFee, LittleEndian;
    FeeRoundTrip(FixedAmount(n));
    FeeRoundTrip(Percentage(bps));
    ParseOne(Entry(1, FeeBytes(FixedAmount(n))), DepositFee(FixedFee(n)));
    ParseOne(Entry(2, FeeBytes(FixedAmount(n))), WithdrawalFee(FixedFee(n)));
    ParseOne(Entry(1, FeeBytes(Percentage(bps))), DepositFee(PercentageFee(bps)));
    ParseOne(Entry(2, FeeBytes(Percentage(bps))), WithdrawalFee(PercentageFee(bps)));
  }

  lemma FlagShown(paused: bool)
    ensures ParseEntries([Entry(Discriminant(PausableSubscriptionsType), FlagBytes(paused))])
         == Ok([PausableSubscriptions(paused)])
    ensures ParseEntries([Entry(Discriminant(PausableRedemptionsType), FlagBytes(paused))]) == Ok([PausableRedemptions(paused)])
    ensures DataLength(PausableSubscriptionsType) == DataLength(PausableRedemptionsType) == |FlagBytes(paused)|
  {
    ParseOne(Entry(3, FlagBytes(paused)), PausableSubscriptions(paused));
    ParseOne(Entry(4, FlagBytes(paused)), PausableRedemptions(paused));
  }

  /** The program refuses requests while the stored flag is not zero. */
  predicate Refuses(flag: ByteSeq)
    requires |flag| == 1
  {
    flag[0] != 0
  }

  /** The web app shows a flag as the program takes it exactly if the byte is zero or one, which is all the program writes. */
  lemma FlagReadersAgreeIff(b: Byte)
    ensures ParseFlag([b]) == Ok(Refuses([b])) <==> b <= 1
    ensures forall paused :: Refuses(FlagBytes(paused)) <==> paused
  {
  }

  /** The extension types are numbered from one to ten, each with a number of its own. */
  lemma TypesNumbered(n: nat)
    ensures (exists t :: Discriminant(t) == n) <==> 1 <= n <= 10
    ensures forall t, u :: Discriminant(t) == Discriminant(u) ==> t == u
  {
    assert Discriminant(DepositFeeType) == 1 && Discriminant(WithdrawalFeeType) == 2;
    assert Discriminant(PausableSubscriptionsType) == 3 && Discriminant(PausableRedemptionsType) == 4;
    assert Discriminant(SubscriptionQueueType) == 5 && Discriminant(RedemptionQueueType) == 6;
    assert Discriminant(MinSubscriptionType) == 7 && Discriminant(MinRedemptionType) == 8;
    assert Discriminant(ExternallyManagedWithdrawalsType) == 9 && Discriminant(InstantSettlementType) == 10;
  }

  /** An account with less than a header behind the base shows no extension, and none is an error. */
  lemma NothingBehindBase(account: ByteSeq)
    requires |account| < VAULT_BASE_LEN + TLV_HEADER_SIZE
    ensures WebReads(account) == Ok([])
  {
  }

  /** The queue's total is shown as its head, the last processed id as its tail. */
  lemma QueueShown(total: U64, lastProcessed: U64)
    ensures ParseEntries([Entry(Discriminant(SubscriptionQueueType), QueueBytes(total, lastProcessed))])
         == Ok([SubscriptionQueue(total, lastProcessed)])
    ensures ParseEntries([Entry(Discriminant(RedemptionQueueType), QueueBytes(total, lastProcessed))])
         == Ok([RedemptionQueue(total, lastProcessed)])
    ensures DataLength(SubscriptionQueueType) == DataLength(RedemptionQueueType) == |QueueBytes(total, lastProcessed)|
  {
    hide ReadU64, LittleEndian;
    var v := QueueBytes(total, lastProcessed);
    assert v[0..8] == LittleEndian(total, 8) && v[8..16] == LittleEndian(lastProcessed, 8);
    ReadStored(v, 0, total);
    ReadStored(v, 8, lastProcessed);
    ParseOne(Entry(5, v), SubscriptionQueue(total, lastProcessed));
    ParseOne(Entry(6, v), RedemptionQueue(total, lastProcessed));
  }

  lemma ThresholdShown(threshold: U64)
    ensures ParseEntries([Entry(Discriminant(MinSubscriptionType), LittleEndian(threshold, 8))])
         == Ok([MinSubscription(threshold)])
    ensures ParseEntries([Entry(Discriminant(MinRedemptionType), LittleEndian(threshold, 8))]) == Ok([MinRedemption(threshold)])
    ensures DataLength(MinSubscriptionType) == DataLength(MinRedemptionType) == 8
  {
    hide ReadU64, LittleEndian;
    var v := LittleEndian(threshold, 8);
    assert v[0..8] == v;
    ReadStored(v, 0, threshold);
    ParseOne(Entry(7, v), MinSubscription(threshold));
    ParseOne(Entry(8, v), MinRedemption(threshold));
  }

  /** The two types the web app does not know are left out, whatever they hold; nothing else is. */
  lemma OnlyUnknownHidden(e: Entry)
    ensures e.kind == Discriminant(ExternallyManagedWithdrawalsType) || e.kind == Discriminant(InstantSettlementType) ==>
              ParseEntries([e]) == Ok([])
    ensures 1 <= e.kind <= 8 ==> ParseEntries([e]) != Ok([])
  {
    assert [e][1..] == [] && ParseEntries([]) == Ok([]);
    PrependNothing(Ok([]));
    if 1 <= e.kind <= 8 {
      KnownIsFound(e.kind, e.value);
    }
  }
}
