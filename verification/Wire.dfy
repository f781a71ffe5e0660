/** The binary encoding of transactions and blocks (iotchain/src/serialization.cpp:142-229). The decoder
    resizes each list to its declared length before it appends the decoded entries, so that decoded
    lists carry as many default entries in front. */
module Wire {
  import opened Strings
  import opened Power
  import opened LittleEndian
  import opened BufferStream

  const HASH_SIZE: nat := 32
  const PUBLIC_KEY_SIZE: nat := 25
  const SIGNATURE_SIZE: nat := 65

  datatype TxInput = TxInput(amount: nat, data: seq<Byte>)

  datatype TxOutput = TxOutput(amount: nat, receiver: seq<Byte>)

  datatype Tx = Tx(
    time: nat,
    inputs: seq<TxInput>,
    outputs: seq<TxOutput>,
    extra: seq<Byte>,
    sender: seq<Byte>,
    signature: seq<Byte>)

  datatype Block = Block(nonce: nat, timestamp: nat, prevHash: seq<Byte>, coinbase: Tx, txs: seq<Tx>)

  // ----- the values that the C++ types hold -----

  predicate Uint(n: nat, k: nat) {
    n < Pow(0x100, k)
  }

  /** Loops over a list count with an `int`. */
  predicate Countable(n: nat) {
    n < 0x8000_0000
  }

  predicate InputOk(x: TxInput) {
    Uint(x.amount, 8) && Uint(|x.data|, 4)
  }

  predicate OutputOk(x: TxOutput) {
    Uint(x.amount, 8) && |x.receiver| == PUBLIC_KEY_SIZE
  }

  predicate TxOk(t: Tx) {
    && Uint(t.time, 8)
    && Countable(|t.inputs|) && (forall i | 0 <= i < |t.inputs| :: InputOk(t.inputs[i]))
    && Countable(|t.outputs|) && (forall i | 0 <= i < |t.outputs| :: OutputOk(t.outputs[i]))
    && Uint(|t.extra|, 4) && |t.sender| == PUBLIC_KEY_SIZE && |t.signature| == SIGNATURE_SIZE
  }

  predicate BlockOk(b: Block) {
    && Uint(b.nonce, 4) && Uint(b.timestamp, 8) && |b.prevHash| == HASH_SIZE
    && TxOk(b.coinbase) && Countable(|b.txs|) && forall i | 0 <= i < |b.txs| :: TxOk(b.txs[i])
  }

  lemma CountFits(n: nat)
    requires Countable(n)
    ensures Uint(n, 4)
  {
    Width4();
  }

  // ----- encoding -----

  function EncodeInput(x: TxInput): seq<Byte> {
    Encoded(x.amount, 8) + (Encoded(|x.data|, 4) + x.data)
  }

  function EncodeInputs(xs: seq<TxInput>): seq<Byte> {
    if xs == [] then [] else EncodeInput(xs[0]) + EncodeInputs(xs[1..])
  }

  function EncodeOutput(x: TxOutput): seq<Byte> {
    Encoded(x.amount, 8) + x.receiver
  }

  function EncodeOutputs(xs: seq<TxOutput>): seq<Byte> {
    if xs == [] then [] else EncodeOutput(xs[0]) + EncodeOutputs(xs[1..])
  }

  function EncodeTx(t: Tx): seq<Byte> {
    Encoded(t.time, 8) + (Encoded(|t.inputs|, 4) + (EncodeInputs(t.inputs) + (Encoded(|t.outputs|, 4) +
    (EncodeOutputs(t.outputs) + (Encoded(|t.extra|, 4) + (t.extra + (t.sender + t.signature)))))))
  }

  function EncodeTxs(ts: seq<Tx>): seq<Byte> {
    if ts == [] then [] else EncodeTx(ts[0]) + EncodeTxs(ts[1..])
  }

  function EncodeBlock(b: Block): seq<Byte> {
    Encoded(b.nonce, 4) + (Encoded(b.timestamp, 8) +
       (b.prevHash + (EncodeTx(b.coinbase) + (Encoded(|b.txs|, 4) + EncodeTxs(b.txs)))))
  }

  // ----- decoding -----

  /** A decoded value and the bytes after it, or the end of the stream. */
  datatype Decoded<+T> = Got(value: T, rest: seq<Byte>) | End

  function TakeBytes(b: seq<Byte>, k: nat): Decoded<seq<Byte>> {
    if k <= |b| then Got(b[..k], b[k..]) else End
  }

  function TakeUint(b: seq<Byte>, k: nat): Decoded<nat> {
    if k <= |b| then Got(Value(b[..k]), b[k..]) else End
  }

  function DecodeInput(b: seq<Byte>): Decoded<TxInput> {
    match TakeUint(b, 8)
    case End => End
    case Got(amount, b1) =>
      match TakeUint(b1, 4)
      case End => End
      case Got(size, b2) =>
        match TakeBytes(b2, size)
        case End => End
        case Got(data, b3) => Got(TxInput(amount, data), b3)
  }

  function DecodeInputs(b: seq<Byte>, count: nat): Decoded<seq<TxInput>>
    decreases count
  {
    if count == 0 then Got([], b)
    else
      match DecodeInput(b)
      case End => End
      case Got(x, b1) =>
        match DecodeInputs(b1, count - 1)
        case End => End
        case Got(xs, b2) => Got([x] + xs, b2)
  }

  function DecodeOutput(b: seq<Byte>): Decoded<TxOutput> {
    match TakeUint(b, 8)
    case End => End
    case Got(amount, b1) =>
      match TakeBytes(b1, PUBLIC_KEY_SIZE)
      case End => End
      case Got(receiver, b2) => Got(TxOutput(amount, receiver), b2)
  }

  function DecodeOutputs(b: seq<Byte>, count: nat): Decoded<seq<TxOutput>>
    decreases count
  {
    if count == 0 then Got([], b)
    else
      match DecodeOutput(b)
      case End => End
      case Got(x, b1) =>
        match DecodeOutputs(b1, count - 1)
        case End => End
        case Got(xs, b2) => Got([x] + xs, b2)
  }

  function Zeros(n: nat): seq<Byte> {
    Repeat(0, n)
  }

  function NoInput(): TxInput {
    TxInput(0, [])
  }

  function NoOutput(): TxOutput {
    TxOutput(0, Zeros(PUBLIC_KEY_SIZE))
  }

  function NoTx(): Tx {
    Tx(0, [], [], [], Zeros(PUBLIC_KEY_SIZE), Zeros(SIGNATURE_SIZE))
  }

  lemma {:induction false} AllZeros(k: nat)
    ensures forall i | 0 <= i < k :: Encoded(0, k)[i] == 0
  {
    if k > 0 {
      AllZeros(k - 1);
    }
  }

  predicate OnlyZeros(b: seq<Byte>) {
    forall i | 0 <= i < |b| :: b[i] == 0
  }

  lemma ZerosAre(n: nat)
    ensures OnlyZeros(Zeros(n))
  {
  }

  lemma ZerosAppend(a: seq<Byte>, b: seq<Byte>)
    requires OnlyZeros(a) && OnlyZeros(b)
    ensures OnlyZeros(a + b)
  {
  }

  /** A default entry is zero in every byte. */
  lemma DefaultsAreZero()
    ensures OnlyZeros(EncodeInput(NoInput())) && OnlyZeros(EncodeOutput(NoOutput())) && OnlyZeros(EncodeTx(NoTx()))
  {
    hide Zeros, OnlyZeros;
    EightZeros();
    var none: seq<Byte> := [];
    assert OnlyZeros(none) by { NoBytes(); }
    ZerosAre(PUBLIC_KEY_SIZE);
    ZerosAre(SIGNATURE_SIZE);
    ZerosAppend(Encoded(0, 4), none);
    ZerosAppend(Encoded(0, 8), Encoded(0, 4) + none);
    ZerosAppend(Encoded(0, 8), Zeros(PUBLIC_KEY_SIZE));
    var keys := Zeros(PUBLIC_KEY_SIZE) + Zeros(SIGNATURE_SIZE);
    ZerosAppend(Zeros(PUBLIC_KEY_SIZE), Zeros(SIGNATURE_SIZE));
    ZerosAppend(none, keys);
    ZerosAppend(Encoded(0, 4), none + keys);
    var tail := Encoded(0, 4) + (none + keys);
    ZerosAppend(none, tail);
    ZerosAppend(Encoded(0, 4), none + tail);
    ZerosAppend(none, Encoded(0, 4) + (none + tail));
    ZerosAppend(Encoded(0, 4), none + (Encoded(0, 4) + (none + tail)));
    ZerosAppend(Encoded(0, 8), Encoded(0, 4) + (none + (Encoded(0, 4) + (none + tail))));
  }

  lemma EightZeros()
    ensures OnlyZeros(Encoded(0, 8)) && OnlyZeros(Encoded(0, 4))
  {
    AllZeros(8);
    AllZeros(4);
  }

  lemma NoBytes()
    ensures OnlyZeros([])
  {
  }

  /** Each list is resized to its length and then appended to. */
  function DecodeTx(b: seq<Byte>): Decoded<Tx> {
    match TakeUint(b, 8)
    case End => End
    case Got(time, b1) =>
      match TakeUint(b1, 4)
      case End => End
      case Got(inputCount, b2) =>
        match DecodeInputs(b2, inputCount)
        case End => End
        case Got(inputs, b3) => DecodeTxOutputs(b3, time, Repeat(NoInput(), inputCount) + inputs)
  }

  function DecodeTxOutputs(b: seq<Byte>, time: nat, inputs: seq<TxInput>): Decoded<Tx> {
    match TakeUint(b, 4)
    case End => End
    case Got(outputCount, b1) =>
      match DecodeOutputs(b1, outputCount)
      case End => End
      case Got(outputs, b2) => DecodeTxTail(b2, time, inputs, Repeat(NoOutput(), outputCount) + outputs)
  }

  function DecodeTxTail(b: seq<Byte>, time: nat, inputs: seq<TxInput>, outputs: seq<TxOutput>): Decoded<Tx> {
    match TakeUint(b, 4)
    case End => End
    case Got(extraSize, b1) =>
      match TakeBytes(b1, extraSize)
      case End => End
      case Got(extra, b2) =>
        match TakeBytes(b2, PUBLIC_KEY_SIZE)
        case End => End
        case Got(sender, b3) =>
          match TakeBytes(b3, SIGNATURE_SIZE)
          case End => End
          case Got(signature, b4) => Got(Tx(time, inputs, outputs, extra, sender, signature), b4)
  }

  function DecodeTxs(b: seq<Byte>, count: nat): Decoded<seq<Tx>>
    decreases count
  {
    if count == 0 then Got([], b)
    else
      match DecodeTx(b)
      case End => End
      case Got(t, b1) =>
        match DecodeTxs(b1, count - 1)
        case End => End
        case Got(ts, b2) => Got([t] + ts, b2)
  }

  function DecodeBlock(b: seq<Byte>): Decoded<Block> {
    match TakeUint(b, 4)
    case End => End
    case Got(nonce, b1) =>
      match TakeUint(b1, 8)
      case End => End
      case Got(timestamp, b2) =>
        match TakeBytes(b2, HASH_SIZE)
        case End => End
        case Got(hash, b3) =>
          match DecodeTx(b3)
          case End => End
          case Got(coinbase, b4) =>
            match TakeUint(b4, 4)
            case End => End
            case Got(count, b5) =>
              match DecodeTxs(b5, count)
              case End => End
              case Got(txs, b6) => Got(Block(nonce, timestamp, hash, coinbase, Repeat(NoTx(), count) + txs), b6)
  }

  // ----- decoding what was encoded -----

  /** What comes back: every list has as many default entries in front as it had entries. */
  function Padded(t: Tx): Tx {
    t.(inputs := Repeat(NoInput(), |t.inputs|) + t.inputs, outputs := Repeat(NoOutput(), |t.outputs|) + t.outputs)
  }

  function PaddedTxs(ts: seq<Tx>): (r: seq<Tx>)
    ensures |r| == |ts| && forall i | 0 <= i < |ts| :: r[i] == Padded(ts[i])
  {
    if ts == [] then [] else [Padded(ts[0])] + PaddedTxs(ts[1..])
  }

  function PaddedBlock(b: Block): Block {
    b.(coinbase := Padded(b.coinbase), txs := Repeat(NoTx(), |b.txs|) + PaddedTxs(b.txs))
  }

  lemma UintBack(n: nat, k: nat, rest: seq<Byte>)
    requires Uint(n, k)
    ensures TakeUint(Encoded(n, k) + rest, k) == Got(n, rest)
  {
    hide Encoded, Value, Pow;
    ValueOfEncoded(n, k);
    var b := Encoded(n, k) + rest;
    assert b[..k] == Encoded(n, k) && b[k..] == rest;
  }

  lemma BytesBack(x: seq<Byte>, rest: seq<Byte>)
    ensures TakeBytes(x + rest, |x|) == Got(x, rest)
  {
    var b := x + rest;
    assert b[..|x|] == x && b[|x|..] == rest;
  }

  lemma InputBack(x: TxInput, rest: seq<Byte>)
    requires InputOk(x)
    ensures DecodeInput(EncodeInput(x) + rest) == Got(x, rest)
  {
    hide Uint, TakeUint, TakeBytes, Encoded;
    AppendAssociative(Encoded(x.amount, 8), Encoded(|x.data|, 4) + x.data, rest);
    AppendAssociative(Encoded(|x.data|, 4), x.data, rest);
    UintBack(x.amount, 8, Encoded(|x.data|, 4) + (x.data + rest));
    UintBack(|x.data|, 4, x.data + rest);
    BytesBack(x.data, rest);
  }

  lemma {:induction false} InputsBack(xs: seq<TxInput>, rest: seq<Byte>)
    requires forall i | 0 <= i < |xs| :: InputOk(xs[i])
    ensures DecodeInputs(EncodeInputs(xs) + rest, |xs|) == Got(xs, rest)
  {
    hide EncodeInput, DecodeInput;
    if xs == [] {
      assert [] + rest == rest;
    } else {
      AppendAssociative(EncodeInput(xs[0]), EncodeInputs(xs[1..]), rest);
      InputBack(xs[0], EncodeInputs(xs[1..]) + rest);
      InputsBack(xs[1..], rest);
      assert xs == [xs[0]] + xs[1..];
    }
  }

  lemma OutputBack(x: TxOutput, rest: seq<Byte>)
    requires OutputOk(x)
    ensures DecodeOutput(EncodeOutput(x) + rest) == Got(x, rest)
  {
    hide Uint, TakeUint, TakeBytes, Encoded;
    AppendAssociative(Encoded(x.amount, 8), x.receiver, rest);
    UintBack(x.amount, 8, x.receiver + rest);
    BytesBack(x.receiver, rest);
  }

  lemma {:induction false} OutputsBack(xs: seq<TxOutput>, rest: seq<Byte>)
    requires forall i | 0 <= i < |xs| :: OutputOk(xs[i])
    ensures DecodeOutputs(EncodeOutputs(xs) + rest, |xs|) == Got(xs, rest)
  {
    hide EncodeOutput, DecodeOutput;
    if xs == [] {
      assert [] + rest == rest;
    } else {
      AppendAssociative(EncodeOutput(xs[0]), EncodeOutputs(xs[1..]), rest);
      OutputBack(xs[0], EncodeOutputs(xs[1..]) + rest);
      OutputsBack(xs[1..], rest);
      assert xs == [xs[0]] + xs[1..];
    }
  }

  lemma NineParts(a: seq<Byte>, b: seq<Byte>, c: seq<Byte>, d: seq<Byte>, e: seq<Byte>, f: seq<Byte>, g: seq<Byte>,
      h: seq<Byte>, i: seq<Byte>, rest: seq<Byte>)
    ensures a + (b + (c + (d + (e + (f + (g + (h + i))))))) + rest
            == a + (b + (c + (d + (e + (f + (g + (h + (i + rest))))))))
  {
  }

  /** Decoding an encoded transaction followed by anything consumes exactly the encoding. */
  lemma TxBack(t: Tx, rest: seq<Byte>)
    requires TxOk(t)
    ensures DecodeTx(EncodeTx(t) + rest) == Got(Padded(t), rest)
  {
    hide Uint, TakeUint, TakeBytes, Encoded, EncodeInputs, EncodeOutputs, DecodeInputs, DecodeOutputs, InputOk,
         OutputOk;
    CountFits(|t.inputs|);
    CountFits(|t.outputs|);
    NineParts(Encoded(t.time, 8), Encoded(|t.inputs|, 4), EncodeInputs(t.inputs), Encoded(|t.outputs|, 4),
        EncodeOutputs(t.outputs),
              Encoded(|t.extra|, 4), t.extra, t.sender, t.signature, rest);
    var b8 := t.signature + rest;
    var b7 := t.sender + b8;
    var b6 := t.extra + b7;
    var b5 := Encoded(|t.extra|, 4) + b6;
    var b4 := EncodeOutputs(t.outputs) + b5;
    var b3 := Encoded(|t.outputs|, 4) + b4;
    var b2 := EncodeInputs(t.inputs) + b3;
    UintBack(t.time, 8, Encoded(|t.inputs|, 4) + b2);
    UintBack(|t.inputs|, 4, b2);
    InputsBack(t.inputs, b3);
    UintBack(|t.outputs|, 4, b4);
    OutputsBack(t.outputs, b5);
    UintBack(|t.extra|, 4, b6);
    BytesBack(t.extra, b7);
    BytesBack(t.sender, b8);
    BytesBack(t.signature, rest);
  }

  lemma {:induction false} TxsBack(ts: seq<Tx>, rest: seq<Byte>)
    requires forall i | 0 <= i < |ts| :: TxOk(ts[i])
    ensures DecodeTxs(EncodeTxs(ts) + rest, |ts|) == Got(PaddedTxs(ts), rest)
  {
    hide EncodeTx, DecodeTx, TxOk, Padded;
    if ts == [] {
      assert [] + rest == rest;
    } else {
      AppendAssociative(EncodeTx(ts[0]), EncodeTxs(ts[1..]), rest);
      TxBack(ts[0], EncodeTxs(ts[1..]) + rest);
      TxsBack(ts[1..], rest);
    }
  }

  lemma SixParts(a: seq<Byte>, b: seq<Byte>, c: seq<Byte>, d: seq<Byte>, e: seq<Byte>, f: seq<Byte>, rest: seq<Byte>)
    ensures a + (b + (c + (d + (e + f)))) + rest == a + (b + (c + (d + (e + (f + rest)))))
  {
  }

  /** Decoding an encoded block followed by anything consumes exactly the encoding. */
  lemma BlockBack(b: Block, rest: seq<Byte>)
    requires BlockOk(b)
    ensures DecodeBlock(EncodeBlock(b) + rest) == Got(PaddedBlock(b), rest)
  {
    hide Uint, TakeUint, TakeBytes, Encoded, EncodeTx, EncodeTxs, DecodeTx, DecodeTxs, TxOk, Padded, PaddedTxs;
    CountFits(|b.txs|);
    SixParts(Encoded(b.nonce, 4), Encoded(b.timestamp, 8), b.prevHash, EncodeTx(b.coinbase), Encoded(|b.txs|, 4),
        EncodeTxs(b.txs), rest);
    var b5 := EncodeTxs(b.txs) + rest;
    var b4 := Encoded(|b.txs|, 4) + b5;
    var b3 := EncodeTx(b.coinbase) + b4;
    var b2 := b.prevHash + b3;
    UintBack(b.nonce, 4, Encoded(b.timestamp, 8) + b2);
    UintBack(b.timestamp, 8, b2);
    BytesBack(b.prevHash, b3);
    TxBack(b.coinbase, b4);
    UintBack(|b.txs|, 4, b5);
    TxsBack(b.txs, rest);
  }

  lemma PaddedIff(t: Tx)
    ensures Padded(t) == t <==> t.inputs == [] && t.outputs == []
  {
    if Padded(t) == t {
      assert |Padded(t).inputs| == 2 * |t.inputs| && |Padded(t).outputs| == 2 * |t.outputs|;
    }
    assert Repeat(NoInput(), 0) + [] == [] && Repeat(NoOutput(), 0) + [] == [];
  }

  lemma PaddedBlockIff(b: Block)
    ensures PaddedBlock(b) == b <==> b.txs == [] && b.coinbase.inputs == [] && b.coinbase.outputs == []
  {
    hide Padded;
    PaddedIff(b.coinbase);
    if PaddedBlock(b) == b {
      assert |PaddedBlock(b).txs| == 2 * |b.txs|;
    }
    assert Repeat(NoTx(), 0) + [] == [];
  }

  /** Decoding an encoded transaction gives that transaction exactly when it has neither inputs nor
      outputs. */
  lemma TxUnchangedIff(t: Tx, rest: seq<Byte>)
    requires TxOk(t)
    ensures DecodeTx(EncodeTx(t) + rest) == Got(t, rest) <==> t.inputs == [] && t.outputs == []
  {
    hide DecodeTx, EncodeTx, TxOk, Padded;
    TxBack(t, rest);
    PaddedIff(t);
  }

  /** Decoding an encoded block gives that block exactly when it lists no transactions and its coinbase
      has neither inputs nor outputs. */
  lemma BlockUnchangedIff(b: Block, rest: seq<Byte>)
    requires BlockOk(b)
    ensures DecodeBlock(EncodeBlock(b) + rest) == Got(b, rest)
            <==> b.txs == [] && b.coinbase.inputs == [] && b.coinbase.outputs == []
  {
    hide DecodeBlock, EncodeBlock, BlockOk, PaddedBlock;
    BlockBack(b, rest);
    PaddedBlockIff(b);
  }

  // ----- no encoding is a proper prefix of another -----

  lemma TakeExtends(b: seq<Byte>, k: nat, more: seq<Byte>)
    requires k <= |b|
    ensures (b + more)[..k] == b[..k] && (b + more)[k..] == b[k..] + more
  {
  }

  lemma InputExtends(b: seq<Byte>, more: seq<Byte>)
    requires DecodeInput(b).Got?
    ensures DecodeInput(b + more) == Got(DecodeInput(b).value, DecodeInput(b).rest + more)
  {
    hide Value;
    TakeExtends(b, 8, more);
    TakeExtends(b[8..], 4, more);
    TakeExtends(b[8..][4..], Value(b[8..][..4]), more);
  }

  lemma {:induction false} InputsExtend(b: seq<Byte>, count: nat, more: seq<Byte>)
    requires DecodeInputs(b, count).Got?
    ensures DecodeInputs(b + more, count) == Got(DecodeInputs(b, count).value, DecodeInputs(b, count).rest + more)
    decreases count
  {
    hide DecodeInput;
    if count > 0 {
      InputExtends(b, more);
      InputsExtend(DecodeInput(b).rest, count - 1, more);
    }
  }

  lemma OutputExtends(b: seq<Byte>, more: seq<Byte>)
    requires DecodeOutput(b).Got?
    ensures DecodeOutput(b + more) == Got(DecodeOutput(b).value, DecodeOutput(b).rest + more)
  {
    hide Value;
    TakeExtends(b, 8, more);
    TakeExtends(b[8..], PUBLIC_KEY_SIZE, more);
  }

  lemma {:induction false} OutputsExtend(b: seq<Byte>, count: nat, more: seq<Byte>)
    requires DecodeOutputs(b, count).Got?
    ensures DecodeOutputs(b + more, count) == Got(DecodeOutputs(b, count).value, DecodeOutputs(b, count).rest + more)
    decreases count
  {
    hide DecodeOutput;
    if count > 0 {
      OutputExtends(b, more);
      OutputsExtend(DecodeOutput(b).rest, count - 1, more);
    }
  }

  lemma TailExtends(b: seq<Byte>, time: nat, inputs: seq<TxInput>, outputs: seq<TxOutput>, more: seq<Byte>)
    requires DecodeTxTail(b, time, inputs, outputs).Got?
    ensures var r := DecodeTxTail(b, time, inputs, outputs);
            DecodeTxTail(b + more, time, inputs, outputs) == Got(r.value, r.rest + more)
  {
    hide Value;
    TakeExtends(b, 4, more);
    var n := Value(b[..4]);
    TakeExtends(b[4..], n, more);
    TakeExtends(b[4..][n..], PUBLIC_KEY_SIZE, more);
    TakeExtends(b[4..][n..][PUBLIC_KEY_SIZE..], SIGNATURE_SIZE, more);
  }

  /** More input after what a transaction takes makes no difference to it. */
  lemma TxExtends(b: seq<Byte>, more: seq<Byte>)
    requires DecodeTx(b).Got?
    ensures DecodeTx(b + more) == Got(DecodeTx(b).value, DecodeTx(b).rest + more)
  {
    hide Value, DecodeInputs, DecodeOutputs, DecodeTxTail;
    TakeExtends(b, 8, more);
    TakeExtends(b[8..], 4, more);
    var n, b2 := Value(b[8..][..4]), b[8..][4..];
    InputsExtend(b2, n, more);
    var b3 := DecodeInputs(b2, n).rest;
    TakeExtends(b3, 4, more);
    var m, b4 := Value(b3[..4]), b3[4..];
    OutputsExtend(b4, m, more);
    TailExtends(DecodeOutputs(b4, m).rest, Value(b[..8]), Repeat(NoInput(), n) + DecodeInputs(b2, n).value,
                Repeat(NoOutput(), m) + DecodeOutputs(b4, m).value, more);
  }

  /** A transaction that is cut off is noticed: decoding any proper prefix of its encoding runs into the
      end of the stream. */
  lemma TruncatedTx(t: Tx, k: nat)
    requires TxOk(t) && k < |EncodeTx(t)|
    ensures DecodeTx(EncodeTx(t)[..k]) == End
  {
    hide EncodeTx, DecodeTx, TxOk;
    var whole := EncodeTx(t);
    assert whole == whole[..k] + whole[k..];
    assert whole + [] == whole;
    TxBack(t, []);
    if DecodeTx(whole[..k]).Got? {
      TxExtends(whole[..k], whole[k..]);
    }
  }

  lemma {:induction false} TxsExtend(b: seq<Byte>, count: nat, more: seq<Byte>)
    requires DecodeTxs(b, count).Got?
    ensures DecodeTxs(b + more, count) == Got(DecodeTxs(b, count).value, DecodeTxs(b, count).rest + more)
    decreases count
  {
    hide DecodeTx;
    if count > 0 {
      TxExtends(b, more);
      TxsExtend(DecodeTx(b).rest, count - 1, more);
    }
  }

  lemma BlockExtends(b: seq<Byte>, more: seq<Byte>)
    requires DecodeBlock(b).Got?
    ensures DecodeBlock(b + more) == Got(DecodeBlock(b).value, DecodeBlock(b).rest + more)
  {
    hide Value, DecodeTx, DecodeTxs;
    TakeExtends(b, 4, more);
    TakeExtends(b[4..], 8, more);
    TakeExtends(b[4..][8..], HASH_SIZE, more);
    var b3 := b[4..][8..][HASH_SIZE..];
    TxExtends(b3, more);
    var b4 := DecodeTx(b3).rest;
    TakeExtends(b4, 4, more);
    TxsExtend(b4[4..], Value(b4[..4]), more);
  }

  /** So is a block that is cut off. */
  lemma TruncatedBlock(b: Block, k: nat)
    requires BlockOk(b) && k < |EncodeBlock(b)|
    ensures DecodeBlock(EncodeBlock(b)[..k]) == End
  {
    hide EncodeBlock, DecodeBlock, BlockOk, PaddedBlock;
    var whole := EncodeBlock(b);
    assert whole == whole[..k] + whole[k..];
    assert whole + [] == whole;
    BlockBack(b, []);
    if DecodeBlock(whole[..k]).Got? {
      BlockExtends(whole[..k], whole[k..]);
    }
  }

  // ----- the serializers -----

  /** stream_serializer::serialize_tx. */
  method SerializeTx(t: Tx, out: BufferStream)
    requires Sound(out.State())
    modifies out
    ensures out.State() == Written(old(out.State()), EncodeTx(t))
  {
    hide Encoded, Written, EncodeInputs, EncodeOutputs;
    ghost var start := out.State();
    out.WriteUint(t.time, 8);
    out.WriteUint(|t.inputs|, 4);
    SerializeInputs(t.inputs, out);
    out.WriteUint(|t.outputs|, 4);
    SerializeOutputs(t.outputs, out);
    out.WriteUint(|t.extra|, 4);
    out.Write(t.extra);
    out.Write(t.sender);
    out.Write(t.signature);
    WrittenNine(start, Encoded(t.time, 8), Encoded(|t.inputs|, 4), EncodeInputs(t.inputs), Encoded(|t.outputs|, 4),
                EncodeOutputs(t.outputs), Encoded(|t.extra|, 4), t.extra, t.sender, t.signature);
  }

  lemma WrittenNine(s: Stream, a: seq<Byte>, b: seq<Byte>, c: seq<Byte>, d: seq<Byte>, e: seq<Byte>, f: seq<Byte>,
      g: seq<Byte>, h: seq<Byte>, i: seq<Byte>)
    requires Sound(s)
    ensures Written(Written(Written(Written(Written(Written(
              Written(Written(Written(s, a), b), c), d), e), f), g), h), i) ==
            Written(s, a + (b + (c + (d + (e + (f + (g + (h + i))))))))
  {
    hide Written;
    var s1 := Written(s, a);
    var s2 := Written(s1, b);
    var s3 := Written(s2, c);
    var s4 := Written(s3, d);
    var s5 := Written(s4, e);
    var s6 := Written(s5, f);
    var s7 := Written(s6, g);
    WrittenTwice(s7, h, i);
    WrittenTwice(s6, g, h + i);
    WrittenTwice(s5, f, g + (h + i));
    WrittenTwice(s4, e, f + (g + (h + i)));
    WrittenTwice(s3, d, e + (f + (g + (h + i))));
    WrittenTwice(s2, c, d + (e + (f + (g + (h + i)))));
    WrittenTwice(s1, b, c + (d + (e + (f + (g + (h + i))))));
    WrittenTwice(s, a, b + (c + (d + (e + (f + (g + (h + i)))))));
  }

  method SerializeInputs(xs: seq<TxInput>, out: BufferStream)
    requires Sound(out.State())
    modifies out
    ensures out.State() == Written(old(out.State()), EncodeInputs(xs))
  {
    hide Encoded, Written;
    ghost var start := out.State();
    assert xs[..0] == [];
    WrittenNothing(start);
    for i := 0 to |xs|
      invariant Sound(out.State()) && out.State() == Written(start, EncodeInputs(xs[..i]))
    {
      ghost var before := out.State();
      out.WriteUint(xs[i].amount, 8);
      out.WriteUint(|xs[i].data|, 4);
      out.Write(xs[i].data);
      WrittenTwice(Written(before, Encoded(xs[i].amount, 8)), Encoded(|xs[i].data|, 4), xs[i].data);
      WrittenTwice(before, Encoded(xs[i].amount, 8), Encoded(|xs[i].data|, 4) + xs[i].data);
      WrittenTwice(start, EncodeInputs(xs[..i]), EncodeInput(xs[i]));
      InputsSnoc(xs, i);
    }
    assert xs[..|xs|] == xs;
  }

  lemma {:induction false} InputsAppend(a: seq<TxInput>, b: seq<TxInput>)
    ensures EncodeInputs(a + b) == EncodeInputs(a) + EncodeInputs(b)
  {
    hide EncodeInput;
    if a == [] {
      assert a + b == b;
    } else {
      InputsAppend(a[1..], b);
      assert (a + b)[1..] == a[1..] + b;
      AppendAssociative(EncodeInput(a[0]), EncodeInputs(a[1..]), EncodeInputs(b));
    }
  }

  lemma InputsSnoc(xs: seq<TxInput>, i: nat)
    requires i < |xs|
    ensures EncodeInputs(xs[..i + 1]) == EncodeInputs(xs[..i]) + EncodeInput(xs[i])
  {
    hide EncodeInput;
    assert xs[..i + 1] == xs[..i] + [xs[i]];
    InputsAppend(xs[..i], [xs[i]]);
    assert [xs[i]][1..] == [];
  }

  method SerializeOutputs(xs: seq<TxOutput>, out: BufferStream)
    requires Sound(out.State())
    modifies out
    ensures out.State() == Written(old(out.State()), EncodeOutputs(xs))
  {
    hide Encoded, Written;
    ghost var start := out.State();
    assert xs[..0] == [];
    WrittenNothing(start);
    for i := 0 to |xs|
      invariant Sound(out.State()) && out.State() == Written(start, EncodeOutputs(xs[..i]))
    {
      ghost var before := out.State();
      out.WriteUint(xs[i].amount, 8);
      out.Write(xs[i].receiver);
      WrittenTwice(before, Encoded(xs[i].amount, 8), xs[i].receiver);
      WrittenTwice(start, EncodeOutputs(xs[..i]), EncodeOutput(xs[i]));
      OutputsSnoc(xs, i);
    }
    assert xs[..|xs|] == xs;
  }

  lemma {:induction false} OutputsAppend(a: seq<TxOutput>, b: seq<TxOutput>)
    ensures EncodeOutputs(a + b) == EncodeOutputs(a) + EncodeOutputs(b)
  {
    hide EncodeOutput;
    if a == [] {
      assert a + b == b;
    } else {
      OutputsAppend(a[1..], b);
      assert (a + b)[1..] == a[1..] + b;
      AppendAssociative(EncodeOutput(a[0]), EncodeOutputs(a[1..]), EncodeOutputs(b));
    }
  }

  lemma OutputsSnoc(xs: seq<TxOutput>, i: nat)
    requires i < |xs|
    ensures EncodeOutputs(xs[..i + 1]) == EncodeOutputs(xs[..i]) + EncodeOutput(xs[i])
  {
    hide EncodeOutput;
    assert xs[..i + 1] == xs[..i] + [xs[i]];
    OutputsAppend(xs[..i], [xs[i]]);
    assert [xs[i]][1..] == [];
  }

  /** stream_serializer::serialize_block. */
  method SerializeBlock(b: Block, out: BufferStream)
    requires Sound(out.State())
    modifies out
    ensures out.State() == Written(old(out.State()), EncodeBlock(b))
  {
    hide Encoded, Written, EncodeTx, EncodeTxs;
    ghost var start := out.State();
    out.WriteUint(b.nonce, 4);
    out.WriteUint(b.timestamp, 8);
    out.Write(b.prevHash);
    SerializeTx(b.coinbase, out);
    out.WriteUint(|b.txs|, 4);
    SerializeTxs(b.txs, out);
    WrittenSix(start, Encoded(b.nonce, 4), Encoded(b.timestamp, 8), b.prevHash, EncodeTx(b.coinbase),
        Encoded(|b.txs|, 4), EncodeTxs(b.txs));
  }

  lemma WrittenSix(s: Stream, a: seq<Byte>, b: seq<Byte>, c: seq<Byte>, d: seq<Byte>, e: seq<Byte>, f: seq<Byte>)
    requires Sound(s)
    ensures Written(Written(Written(Written(Written(Written(s, a), b), c), d), e), f)
            == Written(s, a + (b + (c + (d + (e + f)))))
  {
    hide Written;
    var s1 := Written(s, a);
    var s2 := Written(s1, b);
    var s3 := Written(s2, c);
    var s4 := Written(s3, d);
    WrittenTwice(s4, e, f);
    WrittenTwice(s3, d, e + f);
    WrittenTwice(s2, c, d + (e + f));
    WrittenTwice(s1, b, c + (d + (e + f)));
    WrittenTwice(s, a, b + (c + (d + (e + f))));
  }

  method SerializeTxs(ts: seq<Tx>, out: BufferStream)
    requires Sound(out.State())
    modifies out
    ensures out.State() == Written(old(out.State()), EncodeTxs(ts))
  {
    hide EncodeTx, Written;
    ghost var start := out.State();
    assert ts[..0] == [];
    WrittenNothing(start);
    for i := 0 to |ts|
      invariant Sound(out.State()) && out.State() == Written(start, EncodeTxs(ts[..i]))
    {
      SerializeTx(ts[i], out);
      WrittenTwice(start, EncodeTxs(ts[..i]), EncodeTx(ts[i]));
      TxsSnoc(ts, i);
    }
    assert ts[..|ts|] == ts;
  }

  lemma {:induction false} TxsAppend(a: seq<Tx>, b: seq<Tx>)
    ensures EncodeTxs(a + b) == EncodeTxs(a) + EncodeTxs(b)
  {
    hide EncodeTx;
    if a == [] {
      assert a + b == b;
    } else {
      TxsAppend(a[1..], b);
      assert (a + b)[1..] == a[1..] + b;
      AppendAssociative(EncodeTx(a[0]), EncodeTxs(a[1..]), EncodeTxs(b));
    }
  }

  lemma TxsSnoc(ts: seq<Tx>, i: nat)
    requires i < |ts|
    ensures EncodeTxs(ts[..i + 1]) == EncodeTxs(ts[..i]) + EncodeTx(ts[i])
  {
    hide EncodeTx;
    assert ts[..i + 1] == ts[..i] + [ts[i]];
    TxsAppend(ts[..i], [ts[i]]);
    assert [ts[i]][1..] == [];
  }

  // ----- the deserializers -----

  /** A deserializer returns what the decoder finds in the unread bytes and moves the cursor behind it;
      at the end of the stream it throws, with the cursor somewhere on the way. */
  ghost predicate Reads<T>(before: Stream, after: Stream, d: Decoded<T>, r: Option<T>)
    requires Sound(before)
  {
    && Sound(after) && after.buf == before.buf
    && match d
       case Got(v, rest) => r == Some(v) && Unread(after) == rest
       case End => r == None
  }

  method ReadUint(from: BufferStream, k: nat) returns (r: Option<nat>)
    requires Sound(from.State())
    modifies from
    ensures Reads(old(from.State()), from.State(), TakeUint(Unread(old(from.State())), k), r)
  {
    var bytes := from.Read(k);
    if bytes == None {
      return None;
    }
    r := Some(Value(bytes.value));
  }

  method ReadBytes(from: BufferStream, k: nat) returns (r: Option<seq<Byte>>)
    requires Sound(from.State())
    modifies from
    ensures Reads(old(from.State()), from.State(), TakeBytes(Unread(old(from.State())), k), r)
  {
    r := from.Read(k);
  }

  function Prepend<T>(xs: seq<T>, d: Decoded<seq<T>>): Decoded<seq<T>> {
    match d
    case Got(ys, rest) => Got(xs + ys, rest)
    case End => End
  }

  lemma PrependTwice<T>(xs: seq<T>, x: T, d: Decoded<seq<T>>)
    ensures Prepend(xs, Prepend([x], d)) == Prepend(xs + [x], d)
  {
    if d.Got? {
      assert xs + ([x] + d.value) == xs + [x] + d.value;
    }
  }

  method DeserializeInput(from: BufferStream) returns (r: Option<TxInput>)
    requires Sound(from.State())
    modifies from
    ensures Reads(old(from.State()), from.State(), DecodeInput(Unread(old(from.State()))), r)
  {
    hide TakeUint, TakeBytes;
    var amount := ReadUint(from, 8);
    if amount == None {
      return None;
    }
    var size := ReadUint(from, 4);
    if size == None {
      return None;
    }
    var data := ReadBytes(from, size.value);
    if data == None {
      return None;
    }
    r := Some(TxInput(amount.value, data.value));
  }

  lemma InputsStep(b: seq<Byte>, count: nat)
    requires count > 0
    ensures DecodeInputs(b, count) ==
            if DecodeInput(b).End? then End
            else Prepend([DecodeInput(b).value], DecodeInputs(DecodeInput(b).rest, count - 1))
  {
    hide DecodeInput;
  }

  /** The loop over the inputs: the decoded ones are pushed behind the default ones. */
  method DeserializeInputs(from: BufferStream, count: nat) returns (r: Option<seq<TxInput>>)
    requires Sound(from.State())
    modifies from
    ensures Reads(old(from.State()), from.State(), Prepend(Repeat(NoInput(), count),
            DecodeInputs(Unread(old(from.State())), count)), r)
  {
    hide DecodeInput, DecodeInputs, Prepend, Repeat;
    ghost var whole := Prepend(Repeat(NoInput(), count), DecodeInputs(Unread(from.State()), count));
    var inputs := Repeat(NoInput(), count);
    for i := 0 to count
      invariant Sound(from.State()) && from.buf == old(from.buf)
      invariant whole == Prepend(inputs, DecodeInputs(Unread(from.State()), count - i))
    {
      InputsStep(Unread(from.State()), count - i);
      ghost var d := DecodeInput(Unread(from.State()));
      var input := DeserializeInput(from);
      if input == None {
        PrependEnd(inputs);
        return None;
      }
      PrependTwice(inputs, input.value, DecodeInputs(d.rest, count - i - 1));
      inputs := inputs + [input.value];
    }
    InputsDone(inputs, Unread(from.State()));
    r := Some(inputs);
  }

  lemma PrependEnd<T>(xs: seq<T>)
    ensures Prepend(xs, End) == End
  {
  }

  lemma InputsDone(xs: seq<TxInput>, b: seq<Byte>)
    ensures Prepend(xs, DecodeInputs(b, 0)) == Got(xs, b)
  {
    assert xs + [] == xs;
  }

  method DeserializeOutput(from: BufferStream) returns (r: Option<TxOutput>)
    requires Sound(from.State())
    modifies from
    ensures Reads(old(from.State()), from.State(), DecodeOutput(Unread(old(from.State()))), r)
  {
    hide TakeUint, TakeBytes;
    var amount := ReadUint(from, 8);
    if amount == None {
      return None;
    }
    var receiver := ReadBytes(from, PUBLIC_KEY_SIZE);
    if receiver == None {
      return None;
    }
    r := Some(TxOutput(amount.value, receiver.value));
  }

  lemma OutputsStep(b: seq<Byte>, count: nat)
    requires count > 0
    ensures DecodeOutputs(b, count) ==
            if DecodeOutput(b).End? then End
            else Prepend([DecodeOutput(b).value], DecodeOutputs(DecodeOutput(b).rest, count - 1))
  {
    hide DecodeOutput;
  }

  method DeserializeOutputs(from: BufferStream, count: nat) returns (r: Option<seq<TxOutput>>)
    requires Sound(from.State())
    modifies from
    ensures Reads(old(from.State()), from.State(), Prepend(Repeat(NoOutput(), count),
            DecodeOutputs(Unread(old(from.State())), count)), r)
  {
    hide DecodeOutput, DecodeOutputs, Prepend, Repeat;
    ghost var whole := Prepend(Repeat(NoOutput(), count), DecodeOutputs(Unread(from.State()), count));
    var outputs := Repeat(NoOutput(), count);
    for i := 0 to count
      invariant Sound(from.State()) && from.buf == old(from.buf)
      invariant whole == Prepend(outputs, DecodeOutputs(Unread(from.State()), count - i))
    {
      OutputsStep(Unread(from.State()), count - i);
      ghost var d := DecodeOutput(Unread(from.State()));
      var output := DeserializeOutput(from);
      if output == None {
        PrependEnd(outputs);
        return None;
      }
      PrependTwice(outputs, output.value, DecodeOutputs(d.rest, count - i - 1));
      outputs := outputs + [output.value];
    }
    OutputsDone(outputs, Unread(from.State()));
    r := Some(outputs);
  }

  lemma OutputsDone(xs: seq<TxOutput>, b: seq<Byte>)
    ensures Prepend(xs, DecodeOutputs(b, 0)) == Got(xs, b)
  {
    assert xs + [] == xs;
  }

  /** stream_serializer::deserialize_tx. */
  method DeserializeTx(from: BufferStream) returns (r: Option<Tx>)
    requires Sound(from.State())
    modifies from
    ensures Reads(old(from.State()), from.State(), DecodeTx(Unread(old(from.State()))), r)
  {
    hide TakeUint, DecodeInputs, DecodeTxOutputs, Repeat;
    var time := ReadUint(from, 8);
    if time == None {
      return None;
    }
    var inputCount := ReadUint(from, 4);
    if inputCount == None {
      return None;
    }
    var inputs := DeserializeInputs(from, inputCount.value);
    if inputs == None {
      return None;
    }
    r := DeserializeTxOutputs(from, time.value, inputs.value);
  }

  method DeserializeTxOutputs(from: BufferStream, time: nat, inputs: seq<TxInput>) returns (r: Option<Tx>)
    requires Sound(from.State())
    modifies from
    ensures Reads(old(from.State()), from.State(), DecodeTxOutputs(Unread(old(from.State())), time, inputs), r)
  {
    hide TakeUint, DecodeOutputs, DecodeTxTail, Repeat;
    var outputCount := ReadUint(from, 4);
    if outputCount == None {
      return None;
    }
    var outputs := DeserializeOutputs(from, outputCount.value);
    if outputs == None {
      return None;
    }
    r := DeserializeTxTail(from, time, inputs, outputs.value);
  }

  method DeserializeTxTail(from: BufferStream, time: nat, inputs: seq<TxInput>,
      outputs: seq<TxOutput>) returns (r: Option<Tx>)
    requires Sound(from.State())
    modifies from
    ensures Reads(old(from.State()), from.State(), DecodeTxTail(Unread(old(from.State())), time, inputs, outputs), r)
  {
    hide TakeUint, TakeBytes;
    var extraSize := ReadUint(from, 4);
    if extraSize == None {
      return None;
    }
    var extra := ReadBytes(from, extraSize.value);
    if extra == None {
      return None;
    }
    var sender := ReadBytes(from, PUBLIC_KEY_SIZE);
    if sender == None {
      return None;
    }
    var signature := ReadBytes(from, SIGNATURE_SIZE);
    if signature == None {
      return None;
    }
    r := Some(Tx(time, inputs, outputs, extra.value, sender.value, signature.value));
  }

  lemma TxsStep(b: seq<Byte>, count: nat)
    requires count > 0
    ensures DecodeTxs(b, count) ==
            if DecodeTx(b).End? then End else Prepend([DecodeTx(b).value], DecodeTxs(DecodeTx(b).rest, count - 1))
  {
    hide DecodeTx;
  }

  lemma TxsDone(ts: seq<Tx>, b: seq<Byte>)
    ensures Prepend(ts, DecodeTxs(b, 0)) == Got(ts, b)
  {
    assert ts + [] == ts;
  }

  method DeserializeTxs(from: BufferStream, count: nat) returns (r: Option<seq<Tx>>)
    requires Sound(from.State())
    modifies from
    ensures Reads(old(from.State()), from.State(), Prepend(Repeat(NoTx(), count),
            DecodeTxs(Unread(old(from.State())), count)), r)
  {
    hide DecodeTx, DecodeTxs, Prepend, Repeat;
    ghost var whole := Prepend(Repeat(NoTx(), count), DecodeTxs(Unread(from.State()), count));
    var txs := Repeat(NoTx(), count);
    for i := 0 to count
      invariant Sound(from.State()) && from.buf == old(from.buf)
      invariant whole == Prepend(txs, DecodeTxs(Unread(from.State()), count - i))
    {
      TxsStep(Unread(from.State()), count - i);
      ghost var d := DecodeTx(Unread(from.State()));
      var t := DeserializeTx(from);
      if t == None {
        PrependEnd(txs);
        return None;
      }
      PrependTwice(txs, t.value, DecodeTxs(d.rest, count - i - 1));
      txs := txs + [t.value];
    }
    TxsDone(txs, Unread(from.State()));
    r := Some(txs);
  }

  /** stream_serializer::deserialize_block. */
  method DeserializeBlock(from: BufferStream) returns (r: Option<Block>)
    requires Sound(from.State())
    modifies from
    ensures Reads(old(from.State()), from.State(), DecodeBlock(Unread(old(from.State()))), r)
  {
    hide TakeUint, TakeBytes, DecodeTx, DecodeTxs, Repeat;
    var nonce := ReadUint(from, 4);
    if nonce == None {
      return None;
    }
    var timestamp := ReadUint(from, 8);
    if timestamp == None {
      return None;
    }
    var hash := ReadBytes(from, HASH_SIZE);
    if hash == None {
      return None;
    }
    var coinbase := DeserializeTx(from);
    if coinbase == None {
      return None;
    }
    var count := ReadUint(from, 4);
    if count == None {
      return None;
    }
    var txs := DeserializeTxs(from, count.value);
    if txs == None {
      return None;
    }
    r := Some(Block(nonce.value, timestamp.value, hash.value, coinbase.value, txs.value));
  }
}
