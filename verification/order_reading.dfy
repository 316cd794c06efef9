/**
 What a placeOrder frame says: the fields a reader finds in it, and that no two orders share a frame.
 */
module OrderReading {
  import opened Bytes
  import opened Codec
  import opened Framing
  import opened PlaceOrder
  import opened PlaceTemplate
  import opened Wrappers

  // ---- Reading numbers ----

  predicate AllDigits(text: bytes) {
    forall i :: 0 <= i < |text| ==> 48 <= text[i] <= 57
  }

  function DigitsValue(text: bytes): (n: nat)
    requires AllDigits(text)
  {
    if text == [] then 0 else DigitsValue(text[..|text| - 1]) * 10 + (text[|text| - 1] as int - 48)
  }

  /** `parse::<i32>` and `parse::<i64>`: an optional sign, at least one digit, and in range. */
  function ReadInt(text: bytes, low: int, high: int): (r: Result<int>) {
    var negative := text != [] && text[0] == 45;
    var digits := if negative || (text != [] && text[0] == 43) then text[1..] else text;
    if digits == [] || !AllDigits(digits) then Err
    else
      var n: int := if negative then -(DigitsValue(digits) as int) else DigitsValue(digits);
      if low <= n <= high then Ok(n) else Err
  }

  lemma {:induction false} DigitsRead(n: nat)
    ensures AllDigits(Digits(n)) && DigitsValue(Digits(n)) == n
  {
    var text := Digits(n);
    if n < 10 {
      assert text[..0] == [];
    } else {
      DigitsRead(n / 10);
      assert text[..|text| - 1] == Digits(n / 10);
    }
  }

  /** A number written in decimal is read back, whatever the range it is read in, if it is in it. */
  lemma DecimalReads(n: int, low: int, high: int)
    requires low <= n <= high
    ensures ReadInt(Decimal(n), low, high) == Ok(n)
  {
    DigitsRead(if n < 0 then -n else n);
    if n < 0 {
      assert Decimal(n)[1..] == Digits(-n);
    }
  }

  const I32_LOW := -0x8000_0000
  const I32_HIGH := 0x7FFF_FFFF
  const I64_LOW := -0x8000_0000_0000_0000
  const I64_HIGH := 0x7FFF_FFFF_FFFF_FFFF

  // ---- Reading floats ----

  predicate IsInfinite(v: F64) {
    v == 0x7FF0_0000_0000_0000 || v == 0xFFF0_0000_0000_0000
  }

  /** Every bit pattern but those of the infinities and of NaN. */
  predicate IsFinite(v: F64) {
    v % 0x8000_0000_0000_0000 < 0x7FF0_0000_0000_0000
  }

  predicate IsNumber(v: F64) {
    IsFinite(v) || IsInfinite(v)
  }

  /** The text of a value: the word "Infinite", or its own shortest text. */
  predicate TextOf(text: bytes, v: F64, ryu: F64 -> bytes) {
    text == if IsInfinite(v) then [73, 110, 102, 105, 110, 105, 116, 101] else ryu(v)
  }

  /** What is asked of the shortest-text formatter: no NUL, different texts for different finite
      values, and none of them the word for infinity. */
  ghost predicate Faithful(ryu: F64 -> bytes) {
    && (forall v :: 0 !in ryu(v))
    && (forall v, w :: IsFinite(v) && IsFinite(w) && ryu(v) == ryu(w) ==> v == w)
    && (forall v :: IsFinite(v) ==> ryu(v) != [73, 110, 102, 105, 110, 105, 116, 101])
  }

  predicate SameNumber(v: F64, w: F64) {
    v == w || (IsInfinite(v) && IsInfinite(w))
  }

  lemma SameTextSameNumber(text: bytes, v: F64, w: F64, ryu: F64 -> bytes)
    requires Faithful(ryu) && IsNumber(v) && IsNumber(w) && TextOf(text, v, ryu) && TextOf(text, w, ryu)
    ensures SameNumber(v, w)
  {
  }

  // ---- Reading a frame ----

  /** Where a message's contract section says what. */
  ghost predicate SaysContract(f: Message, c: ContractRequest, ryu: F64 -> bytes)
    requires |f| == 118
  {
    && (I64_LOW <= c.conId <= I64_HIGH ==> ReadInt(f[2], I64_LOW, I64_HIGH) == Ok(c.conId))
    && f[3] == c.symbol && f[4] == c.secType && f[5] == c.lastTradeDate && TextOf(f[6], c.strike, ryu)
    && f[7] == c.right && f[8] == c.multiplier && f[9] == c.exchange && f[10] == c.primaryExchange
    && f[11] == c.currency && f[12] == c.localSymbol && f[13] == c.tradingClass && f[14] == [] && f[15] == []
  }

  ghost predicate SaysParams(f: Message, p: PlaceOrderParams, ryu: F64 -> bytes)
    requires |f| == 118
  {
    && f[16] == p.action && TextOf(f[17], p.totalQuantity, ryu) && f[18] == p.orderType
    && TextOf(f[19], p.lmtPrice, ryu) && TextOf(f[20], p.auxPrice, ryu) && f[21] == p.tif
    && f[23] == p.account && f[26] == p.orderRef && f[33] == (if p.outsideRth then [49] else [48])
    && f[37] == p.goodTillDate
  }

  /** The fields that no order changes: transmit is 1, the discretionary amount is the text of zero,
      the exempt code is -1, and every other one is 0 or empty. */
  ghost predicate SaysConstants(f: Message, ryu: F64 -> bytes)
    requires |f| == 118
  {
    && f[27] == [49] && TextOf(f[36], 0, ryu)
    && f[25] == f[28] == f[29] == f[30] == f[31] == f[32] == f[34] == [48]
    && f[22] == f[24] == f[35] == f[38] == f[39] == f[40] == f[41] == f[42] == f[43] == f[44] == f[45] == []
    && forall i :: 0 <= i < 72 ==> f[46 + i] == Constant(i)
  }

  /** Which of the 72 trailing constants are 0 rather than empty. */
  const ZEROS: set<int> := {1, 4, 7, 8, 10, 16, 32, 33, 35, 38, 39, 41, 45, 54, 63, 64, 65, 67, 68}

  lemma DecimalTexts()
    ensures Decimal(3) == [51] && Decimal(0) == [48] && Decimal(-1) == [45, 49]
  {
    assert Digits(3) == [51] && Digits(0) == [48] && Digits(1) == [49];
  }

  function Constant(i: nat): (text: bytes) {
    if i == 0 then [45, 49] else if i in ZEROS then [48] else []
  }

  lemma EarlyConstantsSay()
    ensures forall i :: 0 <= i < 24 ==> EarlyConstants()[i] == Constant(0 + i)
  {
    DecimalTexts();
  }

  lemma MiddleConstantsSay()
    ensures forall i :: 0 <= i < 24 ==> MiddleConstants()[i] == Constant(24 + i)
  {
    DecimalTexts();
  }

  lemma LateConstantsSay()
    ensures forall i :: 0 <= i < 24 ==> LateConstants()[i] == Constant(48 + i)
  {
    DecimalTexts();
  }

  lemma TrailingSays()
    ensures forall i :: 0 <= i < 72 ==> TrailingFields()[i] == Constant(i)
  {
    EarlyConstantsSay();
    MiddleConstantsSay();
    LateConstantsSay();
    hide EarlyConstants, MiddleConstants, LateConstants, Constant;
    forall i | 0 <= i < 72 ensures TrailingFields()[i] == Constant(i) {
      if 24 <= i < 48 {
        assert MiddleConstants()[i - 24] == Constant(24 + (i - 24));
      } else if 48 <= i {
        assert LateConstants()[i - 48] == Constant(48 + (i - 48));
      }
    }
  }

  lemma ContractSays(c: ContractRequest, ryu: F64 -> bytes)
    ensures var f := ContractFields(c, ryu);
            && (I64_LOW <= c.conId <= I64_HIGH ==> ReadInt(f[0], I64_LOW, I64_HIGH) == Ok(c.conId))
            && f[1] == c.symbol && f[2] == c.secType && f[3] == c.lastTradeDate && TextOf(f[4], c.strike, ryu)
            && f[5] == c.right && f[6] == c.multiplier && f[7] == c.exchange && f[8] == c.primaryExchange
            && f[9] == c.currency && f[10] == c.localSymbol && f[11] == c.tradingClass && f[12] == [] && f[13] == []
  {
    hide ReadInt, Decimal;
    if I64_LOW <= c.conId <= I64_HIGH {
      DecimalReads(c.conId, I64_LOW, I64_HIGH);
    }
  }

  lemma BodySays(p: PlaceOrderParams, ryu: F64 -> bytes)
    ensures var f := BodyFields(p, ryu);
            && f[0] == p.action && TextOf(f[1], p.totalQuantity, ryu) && f[2] == p.orderType
            && TextOf(f[3], p.lmtPrice, ryu) && TextOf(f[4], p.auxPrice, ryu) && f[5] == p.tif
            && f[7] == p.account && f[10] == p.orderRef && f[17] == (if p.outsideRth then [49] else [48])
            && f[21] == p.goodTillDate && f[11] == [49] && TextOf(f[20], 0, ryu)
            && f[9] == f[12] == f[13] == f[14] == f[15] == f[16] == f[18] == [48]
            && f[6] == f[8] == f[19] == f[22] == f[23] == f[24] == f[25] == f[26] == f[27] == f[28] == f[29] == []
  {
  }

  lemma Sections(h: Message, c: Message, b: Message, t: Message)
    requires |h| == 2 && |c| == 14 && |b| == 30 && |t| == 72
    ensures var f := h + c + b + t;
            && |f| == 118 && f[0] == h[0] && f[1] == h[1]
            && (forall i :: 0 <= i < 14 ==> f[2 + i] == c[i])
            && (forall i :: 0 <= i < 30 ==> f[16 + i] == b[i])
            && (forall i :: 0 <= i < 72 ==> f[46 + i] == t[i])
  {
  }

  /** The reference list says message type 3, the order id, the contract, the parameters and the
      constants, each in its place. */
  lemma ReferenceSays(orderId: int, c: ContractRequest, p: PlaceOrderParams, ryu: F64 -> bytes)
    ensures var f := PlaceOrderFields(orderId, c, p, ryu);
            && |f| == 118 && ReadInt(f[0], I32_LOW, I32_HIGH) == Ok(3)
            && (I32_LOW <= orderId <= I32_HIGH ==> ReadInt(f[1], I32_LOW, I32_HIGH) == Ok(orderId))
            && SaysContract(f, c, ryu) && SaysParams(f, p, ryu) && SaysConstants(f, ryu)
  {
    ReferenceSections(orderId, c, p, ryu);
    hide PlaceOrderFields, ContractFields, BodyFields, TrailingFields, ReadInt, Decimal;
    var header := [Decimal(OUT_PLACE_ORDER), Decimal(orderId)];
    Sections(header, ContractFields(c, ryu), BodyFields(p, ryu), TrailingFields());
    DecimalReads(3, I32_LOW, I32_HIGH);
    if I32_LOW <= orderId <= I32_HIGH {
      DecimalReads(orderId, I32_LOW, I32_HIGH);
    }
    var f := PlaceOrderFields(orderId, c, p, ryu);
    assert SaysContract(f, c, ryu) by { ContractAt(f, c, ryu); }
    assert SaysParams(f, p, ryu) && SaysConstants(f, ryu) by { BodyAt(f, p, ryu); }
  }

  lemma ContractAt(f: Message, c: ContractRequest, ryu: F64 -> bytes)
    requires |f| == 118 && forall i :: 0 <= i < 14 ==> f[2 + i] == ContractFields(c, ryu)[i]
    ensures SaysContract(f, c, ryu)
  {
    ContractSays(c, ryu);
    hide ContractFields, ReadInt;
    assert f[2 + 0] == f[2] && f[2 + 13] == f[15];
  }

  lemma BodyAt(f: Message, p: PlaceOrderParams, ryu: F64 -> bytes)
    requires |f| == 118 && (forall i :: 0 <= i < 30 ==> f[16 + i] == BodyFields(p, ryu)[i])
    requires forall i :: 0 <= i < 72 ==> f[46 + i] == TrailingFields()[i]
    ensures SaysParams(f, p, ryu) && SaysConstants(f, ryu)
  {
    BodySays(p, ryu);
    TrailingSays();
    hide BodyFields, TrailingFields;
  }

  // ---- NUL-free orders ----

  ghost predicate PlainContract(c: ContractRequest) {
    && 0 !in c.symbol && 0 !in c.secType && 0 !in c.lastTradeDate && 0 !in c.right && 0 !in c.multiplier
    && 0 !in c.exchange && 0 !in c.primaryExchange && 0 !in c.currency && 0 !in c.localSymbol && 0 !in c.tradingClass
  }

  ghost predicate PlainParams(p: PlaceOrderParams) {
    && 0 !in p.action && 0 !in p.orderType && 0 !in p.tif && 0 !in p.goodTillDate && 0 !in p.account && 0 !in p.orderRef
  }

  lemma NulFreeConcat(a: Message, b: Message)
    requires NulFree(a) && NulFree(b)
    ensures NulFree(a + b)
  {
  }

  lemma PlainFloat(v: F64, ryu: F64 -> bytes)
    requires forall w :: 0 !in ryu(w)
    ensures 0 !in FormatF64(ryu, v)
  {
  }

  lemma ContractNulFree(c: ContractRequest, ryu: F64 -> bytes)
    requires PlainContract(c) && forall w :: 0 !in ryu(w)
    ensures NulFree(ContractFields(c, ryu))
  {
    hide FormatF64, Decimal;
    PlainFloat(c.strike, ryu);
  }

  lemma BodyNulFree(p: PlaceOrderParams, ryu: F64 -> bytes)
    requires PlainParams(p) && forall w :: 0 !in ryu(w)
    ensures NulFree(BodyFields(p, ryu))
  {
    hide FormatF64, Decimal;
    PlainFloat(p.totalQuantity, ryu);
    PlainFloat(p.lmtPrice, ryu);
    PlainFloat(p.auxPrice, ryu);
    PlainFloat(POSITIVE_ZERO, ryu);
    var (a, b, c) := (TermsFields(p, ryu), RoutingFields(p), FlagsFields(p));
    var (d, e) := (ExpiryFields(p, ryu), AllocationFields());
    NulFreeConcat(a, b);
    NulFreeConcat(a + b, c);
    NulFreeConcat(a + b + c, d);
    NulFreeConcat(a + b + c + d, e);
  }

  lemma TrailingNulFree()
    ensures NulFree(TrailingFields())
  {
    TrailingSays();
    hide TrailingFields;
  }

  lemma OrderNulFree(orderId: int, c: ContractRequest, p: PlaceOrderParams, ryu: F64 -> bytes)
    requires PlainContract(c) && PlainParams(p) && forall w :: 0 !in ryu(w)
    ensures NulFree(PlaceOrderFields(orderId, c, p, ryu))
  {
    ReferenceSections(orderId, c, p, ryu);
    ContractNulFree(c, ryu);
    BodyNulFree(p, ryu);
    TrailingNulFree();
    hide PlaceOrderFields, ContractFields, BodyFields, TrailingFields;
    var header := [Decimal(OUT_PLACE_ORDER), Decimal(orderId)];
    NulFreeConcat(header, ContractFields(c, ryu));
    NulFreeConcat(header + ContractFields(c, ryu), BodyFields(p, ryu));
    NulFreeConcat(header + ContractFields(c, ryu) + BodyFields(p, ryu), TrailingFields());
  }

  /** Decoding the frame of an order without NULs finds the reference list, and in it everything the
      order says. */
  lemma FrameSays(orderId: int, c: ContractRequest, p: PlaceOrderParams, ryu: F64 -> bytes)
    requires PlainContract(c) && PlainParams(p) && forall w :: 0 !in ryu(w)
    ensures var frame := PlaceOrderFrame(orderId, c, p, ryu);
            var f := Fields(frame[4..]);
            && f == PlaceOrderFields(orderId, c, p, ryu)
            && |f| == 118 && ReadInt(f[0], I32_LOW, I32_HIGH) == Ok(3)
            && (I32_LOW <= orderId <= I32_HIGH ==> ReadInt(f[1], I32_LOW, I32_HIGH) == Ok(orderId))
            && SaysContract(f, c, ryu) && SaysParams(f, p, ryu) && SaysConstants(f, ryu)
  {
    OrderNulFree(orderId, c, p, ryu);
    ReferenceSays(orderId, c, p, ryu);
    hide PlaceOrderFields, SaysContract, SaysParams, SaysConstants, ReadInt;
    var fields := PlaceOrderFields(orderId, c, p, ryu);
    assert Pack(Terminated(fields))[4..] == Terminated(fields);
    FieldsOfTerminated(fields);
  }

  lemma SameContract(f: Message, c: ContractRequest, d: ContractRequest, ryu: F64 -> bytes)
    requires |f| == 118 && SaysContract(f, c, ryu) && SaysContract(f, d, ryu) && Faithful(ryu)
    requires IsNumber(c.strike) && IsNumber(d.strike)
    requires I64_LOW <= c.conId <= I64_HIGH && I64_LOW <= d.conId <= I64_HIGH
    ensures c.(strike := d.strike) == d && SameNumber(c.strike, d.strike)
  {
    hide ReadInt;
    SameTextSameNumber(f[6], c.strike, d.strike, ryu);
  }

  lemma SameParams(f: Message, p: PlaceOrderParams, q: PlaceOrderParams, ryu: F64 -> bytes)
    requires |f| == 118 && SaysParams(f, p, ryu) && SaysParams(f, q, ryu) && Faithful(ryu)
    requires IsNumber(p.totalQuantity) && IsNumber(p.lmtPrice) && IsNumber(p.auxPrice)
    requires IsNumber(q.totalQuantity) && IsNumber(q.lmtPrice) && IsNumber(q.auxPrice)
    ensures p.(totalQuantity := q.totalQuantity, lmtPrice := q.lmtPrice, auxPrice := q.auxPrice) == q
    ensures SameNumber(p.totalQuantity, q.totalQuantity)
    ensures SameNumber(p.lmtPrice, q.lmtPrice) && SameNumber(p.auxPrice, q.auxPrice)
  {
    SameTextSameNumber(f[17], p.totalQuantity, q.totalQuantity, ryu);
    SameTextSameNumber(f[19], p.lmtPrice, q.lmtPrice, ryu);
    SameTextSameNumber(f[20], p.auxPrice, q.auxPrice, ryu);
  }

  /** Orders with equal frames are equal: their ids, contracts and parameters, the sign of an infinity
      apart. */
  lemma EqualFramesEqualOrders(
      id1: int, c1: ContractRequest, p1: PlaceOrderParams,
      id2: int, c2: ContractRequest, p2: PlaceOrderParams, ryu: F64 -> bytes)
    requires Faithful(ryu)
    requires PlainContract(c1) && PlainParams(p1) && PlainContract(c2) && PlainParams(p2)
    requires I32_LOW <= id1 <= I32_HIGH && I32_LOW <= id2 <= I32_HIGH
    requires I64_LOW <= c1.conId <= I64_HIGH && I64_LOW <= c2.conId <= I64_HIGH
    requires IsNumber(c1.strike) && IsNumber(p1.totalQuantity) && IsNumber(p1.lmtPrice) && IsNumber(p1.auxPrice)
    requires IsNumber(c2.strike) && IsNumber(p2.totalQuantity) && IsNumber(p2.lmtPrice) && IsNumber(p2.auxPrice)
    requires PlaceOrderFrame(id1, c1, p1, ryu) == PlaceOrderFrame(id2, c2, p2, ryu)
    ensures id1 == id2
    ensures c1.(strike := c2.strike) == c2 && SameNumber(c1.strike, c2.strike)
    ensures p1.(totalQuantity := p2.totalQuantity, lmtPrice := p2.lmtPrice, auxPrice := p2.auxPrice) == p2
    ensures SameNumber(p1.totalQuantity, p2.totalQuantity)
    ensures SameNumber(p1.lmtPrice, p2.lmtPrice) && SameNumber(p1.auxPrice, p2.auxPrice)
  {
    FrameSays(id1, c1, p1, ryu);
    FrameSays(id2, c2, p2, ryu);
    hide PlaceOrderFrame, PlaceOrderFields, SaysContract, SaysParams, SaysConstants, ReadInt, Fields;
    var f := Fields(PlaceOrderFrame(id1, c1, p1, ryu)[4..]);
    SameContract(f, c1, c2, ryu);
    SameParams(f, p1, p2, ryu);
  }
}
