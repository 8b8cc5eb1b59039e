/** Monero's variable-length integers, and the prefix of its transactions. */
module MoneroSerialize {
  import opened Wrappers
  import opened Powers

  type Byte = x: nat | x < 256

  /** What was read, and what wasn't yet. */
  type Read<T> = Option<(T, seq<Byte>)>

  // Integers

  /** Seven bits per byte, the least significant first, every byte but the last with its top bit set. */
  function Varint(v: nat): (r: seq<Byte>)
    ensures r != []
  {
    if v < 128 then [v] else [v % 128 + 128] + Varint(v / 128)
  }

  /** Reading an integer of the given width, from the bit reached. */
  function ReadFrom(width: nat, bytes: seq<Byte>, bits: nat): Read<nat>
    requires bits < width
    decreases |bytes|
  {
    if bytes == [] then None
    else
      var b := bytes[0];
      if bits != 0 && b == 0 then None
      else if bits + 7 >= width && b >= Pow2(width - bits) then None
      else if b < 128 then Some((b, bytes[1..]))
      else
        FitsSeven(width, bits, b);
        match ReadFrom(width, bytes[1..], bits + 7)
        case None => None
        case Some((v, rest)) => Some((b - 128 + 128 * v, rest))
  }

  lemma FitsSeven(width: nat, bits: nat, b: Byte)
    requires bits < width && b >= 128 && (bits + 7 >= width ==> b < Pow2(width - bits))
    ensures bits + 7 < width
  {
    Seven();
    if bits + 7 >= width { Pow2Monotone(width - bits, 7); }
  }

  lemma Seven()
    ensures Pow2(7) == 128
  {
    assert Pow2(3) == 8 && Pow2(4) == 16;
    Pow2Add(3, 4);
  }

  lemma SevenBits(n: nat)
    requires n >= 7
    ensures Pow2(n) == 128 * Pow2(n - 7)
  {
    Seven();
    Pow2Add(7, n - 7);
  }

  /** Every integer written is read back. */
  lemma {:induction false} VarintRead(width: nat, v: nat, bits: nat, rest: seq<Byte>)
    requires bits < width && v < Pow2(width - bits) && (bits != 0 ==> v != 0)
    ensures ReadFrom(width, Varint(v) + rest, bits) == Some((v, rest))
    decreases v
  {
    var bytes := Varint(v) + rest;
    if v < 128 {
      assert bytes[1..] == rest;
    } else {
      Seven();
      if bits + 7 >= width { Pow2Monotone(width - bits, 7); }
      SevenBits(width - bits);
      assert v / 128 < Pow2(width - bits - 7);
      VarintRead(width, v / 128, bits + 7, rest);
      assert bytes[1..] == Varint(v / 128) + rest;
    }
  }

  /** Whatever is accepted is the one encoding of an integer of the width. */
  lemma {:induction false} ReadIsVarint(width: nat, bytes: seq<Byte>, bits: nat, v: nat, rest: seq<Byte>)
    requires bits < width && ReadFrom(width, bytes, bits) == Some((v, rest))
    ensures v < Pow2(width - bits) && (bits != 0 ==> v != 0) && bytes == Varint(v) + rest
    decreases |bytes|
  {
    var b := bytes[0];
    if b < 128 {
      Seven();
      if bits + 7 < width { Pow2Monotone(7, width - bits); }
      assert bytes == [b] + bytes[1..];
    } else {
      FitsSeven(width, bits, b);
      var (w, more) := ReadFrom(width, bytes[1..], bits + 7).value;
      ReadIsVarint(width, bytes[1..], bits + 7, w, more);
      SevenBits(width - bits);
      assert v == b - 128 + 128 * w && v / 128 == w && v % 128 == b - 128;
      assert bytes == [b] + bytes[1..];
    }
  }

  /** `write_varint` */
  method WriteVarint(value: nat) returns (written: seq<Byte>)
    ensures written == Varint(value)
  {
    var varint := value;
    written := [];
    while true
      invariant written + Varint(varint) == Varint(value)
      decreases varint
    {
      VarintStep(written, varint);
      var b: nat := varint % 128;
      varint := varint / 128;
      if varint != 0 {
        b := b + 128;
      }
      written := written + [b];
      if varint == 0 {
        break;
      }
    }
  }

  lemma VarintStep(written: seq<Byte>, v: nat)
    ensures v < 128 ==> v / 128 == 0 && v % 128 == v && Varint(v) == [v]
    ensures v >= 128 ==> v / 128 != 0 && (written + [v % 128 + 128]) + Varint(v / 128) == written + Varint(v)
  {
    if v >= 128 { Associate(written, [v % 128 + 128], Varint(v / 128)); }
  }

  /** `read_varint` */
  method ReadVarint(width: nat, bytes: seq<Byte>) returns (r: Read<nat>)
    requires width > 0
    ensures r == ReadFrom(width, bytes, 0)
  {
    var bits, res, at := 0, 0, 0;
    assert bytes[0..] == bytes;
    while true
      invariant bits < width && at <= |bytes|
      invariant match ReadFrom(width, bytes[at..], bits)
                case None => ReadFrom(width, bytes, 0) == None
                case Some((v, rest)) => ReadFrom(width, bytes, 0) == Some((res + v * Pow2(bits), rest))
      decreases |bytes| - at
    {
      if at >= |bytes| {
        return None;
      }
      var b := bytes[at];
      assert bytes[at..][1..] == bytes[at + 1..];
      if bits != 0 && b == 0 {
        return None;
      }
      if bits + 7 >= width && b >= Pow2(width - bits) {
        return None;
      }
      if b >= 128 {
        FitsSeven(width, bits, b);
        ghost var next := ReadFrom(width, bytes[at + 1..], bits + 7);
        if next.Some? { Scaled(b - 128, next.value.0, bits); }
      }
      res := res + (b % 128) * Pow2(bits);
      bits := bits + 7;
      at := at + 1;
      if b < 128 {
        return Some((res, bytes[at..]));
      }
    }
  }

  lemma Scaled(b: nat, v: nat, bits: nat)
    ensures (b + 128 * v) * Pow2(bits) == b * Pow2(bits) + v * Pow2(bits + 7)
  {
    SevenBits(bits + 7);
    Spread(b, v, Pow2(bits));
  }

  lemma Spread(b: int, v: int, p: int)
    ensures (b + 128 * v) * p == b * p + v * (128 * p)
  {}

  function BitLength(v: nat): nat { if v == 0 then 0 else 1 + BitLength(v / 2) }

  /** `varint_len` */
  function VarintLen(v: nat): nat {
    var bits := BitLength(v);
    (if bits == 0 then 0 else bits - 1) / 7 + 1
  }

  /** The length of an encoding is what it is said to be. */
  lemma {:induction false} VarintLength(v: nat)
    ensures |Varint(v)| == VarintLen(v)
  {
    if v < 128 {
      SmallBits(v, 7);
    } else {
      VarintLength(v / 128);
      SevenFewer(v);
    }
  }

  lemma {:induction false} SmallBits(v: nat, n: nat)
    requires v < Pow2(n)
    ensures BitLength(v) <= n
  {
    if v > 0 { SmallBits(v / 2, n - 1); }
  }

  lemma SevenFewer(v: nat)
    requires v >= 128
    ensures BitLength(v) == BitLength(v / 128) + 7 && BitLength(v / 128) >= 1
  {
    var c, f := v / 8, v / 64;
    ThreeFewer(v);
    ThreeFewer(c);
    assert c / 8 == f && f / 2 == v / 128;
  }

  lemma ThreeFewer(v: nat)
    requires v >= 8
    ensures BitLength(v) == BitLength(v / 8) + 3
  {
    var a, b := v / 2, v / 4;
    assert a / 2 == b && b / 2 == v / 8;
    assert BitLength(v) == 1 + BitLength(a) && BitLength(a) == 1 + BitLength(b) && BitLength(b) == 1 + BitLength(v / 8);
  }

  // Reading what was written, and only that

  /** The codec reads whatever it writes, and accepts nothing but what it writes. */
  ghost predicate Codec<T(!new)>(read: seq<Byte> -> Read<T>, write: T -> seq<Byte>, valid: T -> bool) {
    && (forall x, rest :: valid(x) ==> read(write(x) + rest) == Some((x, rest)))
    && (forall bytes :: Exact(read, write, valid, bytes))
  }

  ghost predicate Exact<T(!new)>(read: seq<Byte> -> Read<T>, write: T -> seq<Byte>, valid: T -> bool,
                          bytes: seq<Byte>) {
    match read(bytes)
    case None => true
    case Some((x, rest)) => valid(x) && bytes == write(x) + rest
  }

  function ReadMany<T>(read: seq<Byte> -> Read<T>, n: nat, bytes: seq<Byte>): Read<seq<T>>
    decreases n
  {
    if n == 0 then Some(([], bytes))
    else
      match read(bytes)
      case None => None
      case Some((x, rest)) =>
        match ReadMany(read, n - 1, rest)
        case None => None
        case Some((xs, more)) => Some(([x] + xs, more))
  }

  function WriteMany<T>(write: T -> seq<Byte>, xs: seq<T>): seq<Byte> {
    if xs == [] then [] else write(xs[0]) + WriteMany(write, xs[1..])
  }

  ghost predicate AllValid<T>(valid: T -> bool, xs: seq<T>) {
    forall i :: 0 <= i < |xs| ==> valid(xs[i])
  }

  lemma {:induction false} ManyRead<T(!new)>(read: seq<Byte> -> Read<T>, write: T -> seq<Byte>, valid: T -> bool,
                                      xs: seq<T>, rest: seq<Byte>)
    requires Codec(read, write, valid) && AllValid(valid, xs)
    ensures ReadMany(read, |xs|, WriteMany(write, xs) + rest) == Some((xs, rest))
  {
    if xs == [] {
      assert WriteMany(write, xs) + rest == rest;
    } else {
      ManyRead(read, write, valid, xs[1..], rest);
      assert valid(xs[0]);
      assert WriteMany(write, xs) + rest == write(xs[0]) + (WriteMany(write, xs[1..]) + rest);
      assert [xs[0]] + xs[1..] == xs;
    }
  }

  lemma {:induction false} ManyExact<T(!new)>(read: seq<Byte> -> Read<T>, write: T -> seq<Byte>, valid: T -> bool,
                                       n: nat, bytes: seq<Byte>)
    requires Codec(read, write, valid)
    ensures match ReadMany(read, n, bytes)
            case None => true
            case Some((xs, rest)) => |xs| == n && AllValid(valid, xs) && bytes == WriteMany(write, xs) + rest
    decreases n
  {
    if n > 0 && ReadMany(read, n, bytes).Some? {
      assert Exact(read, write, valid, bytes);
      var (x, rest) := read(bytes).value;
      ManyExact(read, write, valid, n - 1, rest);
      var (xs, more) := ReadMany(read, n - 1, rest).value;
      assert ([x] + xs)[1..] == xs;
      assert write(x) + (WriteMany(write, xs) + more) == WriteMany(write, [x] + xs) + more;
    }
  }

  /** `read_varint` into u64 or usize. */
  function ReadU64(bytes: seq<Byte>): Read<nat> { ReadFrom(64, bytes, 0) }

  predicate U64(v: nat) { v < Pow2(64) }

  lemma U64Codec()
    ensures Codec(ReadU64, Varint, U64)
  {
    forall v: nat, rest: seq<Byte> | U64(v) ensures ReadU64(Varint(v) + rest) == Some((v, rest)) {
      VarintRead(64, v, 0, rest);
    }
    forall bytes: seq<Byte> ensures Exact(ReadU64, Varint, U64, bytes) {
      var r := ReadU64(bytes);
      if r.Some? { ReadIsVarint(64, bytes, 0, r.value.0, r.value.1); }
    }
  }

  /** `read_vec` */
  function ReadVec<T>(read: seq<Byte> -> Read<T>, bytes: seq<Byte>): Read<seq<T>> {
    match ReadU64(bytes)
    case None => None
    case Some((n, rest)) => ReadMany(read, n, rest)
  }

  /** `write_vec` */
  function WriteVec<T>(write: T -> seq<Byte>, xs: seq<T>): seq<Byte> { Varint(|xs|) + WriteMany(write, xs) }

  ghost predicate ValidVec<T>(valid: T -> bool, xs: seq<T>) { U64(|xs|) && AllValid(valid, xs) }

  lemma VecRead<T(!new)>(read: seq<Byte> -> Read<T>, write: T -> seq<Byte>, valid: T -> bool, xs: seq<T>,
                  rest: seq<Byte>)
    requires Codec(read, write, valid) && ValidVec(valid, xs)
    ensures ReadVec(read, WriteVec(write, xs) + rest) == Some((xs, rest))
  {
    VarintRead(64, |xs|, 0, WriteMany(write, xs) + rest);
    ManyRead(read, write, valid, xs, rest);
    Associate(Varint(|xs|), WriteMany(write, xs), rest);
  }

  lemma VecExact<T(!new)>(read: seq<Byte> -> Read<T>, write: T -> seq<Byte>, valid: T -> bool, bytes: seq<Byte>)
    requires Codec(read, write, valid)
    ensures match ReadVec(read, bytes)
            case None => true
            case Some((xs, rest)) => ValidVec(valid, xs) && bytes == WriteVec(write, xs) + rest
  {
    var r := ReadU64(bytes);
    if r.Some? {
      ReadIsVarint(64, bytes, 0, r.value.0, r.value.1);
      ManyExact(read, write, valid, r.value.0, r.value.1);
      var v := ReadMany(read, r.value.0, r.value.1);
      if v.Some? { Associate(Varint(r.value.0), WriteMany(write, v.value.0), v.value.1); }
    }
  }

  // Transactions

  /** Whether 32 bytes are the encoding of a point without torsion, which only has one. */
  const TorsionFree: seq<Byte> -> bool

  function ReadByte(bytes: seq<Byte>): Read<Byte> {
    if bytes == [] then None else Some((bytes[0], bytes[1..]))
  }

  function ReadBytes(n: nat, bytes: seq<Byte>): Read<seq<Byte>> {
    if |bytes| < n then None else Some((bytes[..n], bytes[n..]))
  }

  function WriteByte(b: Byte): seq<Byte> { [b] }

  predicate AnyByte(b: Byte) { true }

  lemma ByteCodec()
    ensures Codec(ReadByte, WriteByte, AnyByte)
  {
    forall bytes: seq<Byte> ensures Exact(ReadByte, WriteByte, AnyByte, bytes) {
      if bytes != [] { assert bytes == [bytes[0]] + bytes[1..]; }
    }
  }

  datatype Input =
    | Gen(height: nat)
    | ToKey(amount: Option<nat>, keyOffsets: seq<nat>, keyImage: seq<Byte>)

  function AmountOf(amount: Option<nat>): nat { if amount.Some? then amount.value else 0 }

  function WriteInput(input: Input): seq<Byte> {
    match input
    case Gen(height) => [255] + Varint(height)
    case ToKey(amount, offsets, image) => [2] + (Varint(AmountOf(amount)) + (WriteVec(Varint, offsets) + image))
  }

  function ReadToKey(bytes: seq<Byte>): Read<Input> {
    match ReadU64(bytes)
    case None => None
    case Some((amount, rest)) =>
      match ReadVec(ReadU64, rest)
      case None => None
      case Some((offsets, more)) =>
        match ReadBytes(32, more)
        case None => None
        case Some((image, end)) =>
          if TorsionFree(image)
          then Some((ToKey(if amount == 0 then None else Some(amount), offsets, image), end))
          else None
  }

  function ReadInput(bytes: seq<Byte>): Read<Input> {
    match ReadByte(bytes)
    case None => None
    case Some((kind, rest)) =>
      if kind == 255 then
        match ReadU64(rest)
        case None => None
        case Some((height, more)) => Some((Gen(height), more))
      else if kind == 2 then ReadToKey(rest)
      else None
  }

  ghost predicate ValidInput(input: Input) {
    match input
    case Gen(height) => U64(height)
    case ToKey(amount, offsets, image) =>
      && U64(AmountOf(amount)) && amount != Some(0) && ValidVec(U64, offsets) && |image| == 32 && TorsionFree(image)
  }

  lemma ImageRead(image: seq<Byte>, rest: seq<Byte>)
    requires |image| == 32
    ensures ReadBytes(32, image + rest) == Some((image, rest))
  {
    assert (image + rest)[..32] == image && (image + rest)[32..] == rest;
  }

  lemma ToKeyRead(input: Input, rest: seq<Byte>)
    requires ValidInput(input) && input.ToKey?
    ensures ReadToKey(WriteInput(input)[1..] + rest) == Some((input, rest))
  {
    U64Codec();
    var amount, offsets, image := AmountOf(input.amount), input.keyOffsets, input.keyImage;
    var tail := WriteVec(Varint, offsets) + (image + rest);
    assert WriteInput(input)[1..] + rest == Varint(amount) + tail;
    VarintRead(64, amount, 0, tail);
    VecRead(ReadU64, Varint, U64, offsets, image + rest);
    ImageRead(image, rest);
  }

  lemma ToKeyExact(bytes: seq<Byte>)
    ensures match ReadToKey(bytes)
            case None => true
            case Some((input, rest)) => ValidInput(input) && [2] + bytes == WriteInput(input) + rest
  {
    var r := ReadToKey(bytes);
    if r.Some? {
      U64Codec();
      var (amount, rest) := ReadU64(bytes).value;
      ReadIsVarint(64, bytes, 0, amount, rest);
      VecExact(ReadU64, Varint, U64, rest);
      var (offsets, more) := ReadVec(ReadU64, rest).value;
      var image, end := more[..32], more[32..];
      assert more == image + end;
      Associate(WriteVec(Varint, offsets), image, end);
      Associate(Varint(amount), WriteVec(Varint, offsets) + image, end);
      Associate([2], Varint(amount) + (WriteVec(Varint, offsets) + image), end);
    }
  }

  lemma InputCodec()
    ensures Codec(ReadInput, WriteInput, ValidInput)
  {
    forall input: Input, rest: seq<Byte> | ValidInput(input)
      ensures ReadInput(WriteInput(input) + rest) == Some((input, rest))
    {
      var bytes := WriteInput(input) + rest;
      assert bytes[1..] == WriteInput(input)[1..] + rest;
      if input.Gen? {
        VarintRead(64, input.height, 0, rest);
      } else {
        ToKeyRead(input, rest);
      }
    }
    forall bytes: seq<Byte> ensures Exact(ReadInput, WriteInput, ValidInput, bytes) { InputExact(bytes); }
  }

  lemma InputExact(bytes: seq<Byte>)
    ensures Exact(ReadInput, WriteInput, ValidInput, bytes)
  {
    if bytes != [] {
      assert bytes == [bytes[0]] + bytes[1..];
      if bytes[0] == 255 {
        var r := ReadU64(bytes[1..]);
        if r.Some? { ReadIsVarint(64, bytes[1..], 0, r.value.0, r.value.1); }
      } else if bytes[0] == 2 {
        ToKeyExact(bytes[1..]);
      }
    }
  }

  datatype Output = Output(amount: Option<nat>, key: seq<Byte>, viewTag: Option<Byte>)

  function WriteTag(tag: Option<Byte>): seq<Byte> { if tag.Some? then [tag.value] else [] }

  function WriteOutput(output: Output): seq<Byte> {
    Varint(AmountOf(output.amount)) +
    ([if output.viewTag.Some? then 3 else 2] + (output.key + WriteTag(output.viewTag)))
  }

  function ReadKey(amount: Option<nat>, tagged: bool, bytes: seq<Byte>): Read<Output> {
    match ReadBytes(32, bytes)
    case None => None
    case Some((key, rest)) =>
      if !tagged then Some((Output(amount, key, None), rest))
      else
        match ReadByte(rest)
        case None => None
        case Some((tag, more)) => Some((Output(amount, key, Some(tag)), more))
  }

  function ReadOutput(rct: bool, bytes: seq<Byte>): Read<Output> {
    match ReadU64(bytes)
    case None => None
    case Some((amount, rest)) =>
      if rct && amount != 0 then None
      else
        match ReadByte(rest)
        case None => None
        case Some((kind, more)) =>
          if kind == 2 || kind == 3 then ReadKey(if rct then None else Some(amount), kind == 3, more) else None
  }

  function OutputReader(rct: bool): seq<Byte> -> Read<Output> { bytes => ReadOutput(rct, bytes) }

  ghost predicate ValidOutput(rct: bool, output: Output) {
    (rct <==> output.amount.None?) && U64(AmountOf(output.amount)) && |output.key| == 32
  }

  ghost function OutputValid(rct: bool): Output -> bool { output => ValidOutput(rct, output) }

  lemma OutputRead(rct: bool, output: Output, rest: seq<Byte>)
    requires ValidOutput(rct, output)
    ensures ReadOutput(rct, WriteOutput(output) + rest) == Some((output, rest))
  {
    var amount, tag := AmountOf(output.amount), WriteTag(output.viewTag);
    var kind: Byte := if output.viewTag.Some? then 3 else 2;
    var tail := [kind] + (output.key + (tag + rest));
    assert WriteOutput(output) + rest == Varint(amount) + tail;
    VarintRead(64, amount, 0, tail);
    assert tail[1..] == output.key + (tag + rest);
    ImageRead(output.key, tag + rest);
    assert output.viewTag.Some? ==> (tag + rest)[1..] == rest;
    assert output.viewTag.None? ==> tag + rest == rest;
  }

  lemma KeyExact(amount: Option<nat>, tagged: bool, bytes: seq<Byte>)
    ensures match ReadKey(amount, tagged, bytes)
            case None => true
            case Some((output, rest)) =>
              && output.amount == amount && (output.viewTag.Some? <==> tagged) && |output.key| == 32
              && bytes == (output.key + WriteTag(output.viewTag)) + rest
  {
    var r := ReadKey(amount, tagged, bytes);
    if r.Some? {
      var more := bytes[32..];
      assert bytes == bytes[..32] + more;
      if tagged { assert more == [more[0]] + more[1..]; }
    }
  }

  lemma OutputExact(rct: bool, bytes: seq<Byte>)
    ensures match ReadOutput(rct, bytes)
            case None => true
            case Some((output, rest)) => ValidOutput(rct, output) && bytes == WriteOutput(output) + rest
  {
    var r := ReadOutput(rct, bytes);
    if r.Some? {
      var (amount, rest) := ReadU64(bytes).value;
      ReadIsVarint(64, bytes, 0, amount, rest);
      var kind, more, output, end := rest[0], rest[1..], r.value.0, r.value.1;
      KeyExact(if rct then None else Some(amount), kind == 3, more);
      var tail := output.key + WriteTag(output.viewTag);
      assert rest == [kind] + more;
      Associate([kind], tail, end);
      Associate(Varint(amount), [kind] + tail, end);
    }
  }

  lemma OutputCodec(rct: bool)
    ensures Codec(OutputReader(rct), WriteOutput, OutputValid(rct))
  {
    forall output: Output, rest: seq<Byte> | OutputValid(rct)(output)
      ensures OutputReader(rct)(WriteOutput(output) + rest) == Some((output, rest))
    {
      OutputRead(rct, output, rest);
    }
    forall bytes: seq<Byte> ensures Exact(OutputReader(rct), WriteOutput, OutputValid(rct), bytes) {
      OutputExact(rct, bytes);
      assert OutputReader(rct)(bytes) == ReadOutput(rct, bytes);
    }
  }

  datatype Timelock = Unlocked | Block(block: nat) | Time(time: nat)

  function FromRaw(raw: nat): Timelock {
    if raw == 0 then Unlocked else if raw < 500_000_000 then Block(raw) else Time(raw)
  }

  function ToRaw(timelock: Timelock): nat {
    match timelock case Unlocked => 0 case Block(block) => block case Time(time) => time
  }

  /** A raw timelock is a block up to 500 million, and a time from there on. */
  lemma TimelockKinds(raw: nat)
    ensures FromRaw(raw).Unlocked? <==> raw == 0
    ensures FromRaw(raw) == Block(raw) <==> 0 < raw < 500_000_000
    ensures FromRaw(raw) == Time(raw) <==> raw >= 500_000_000
    ensures ToRaw(FromRaw(raw)) == raw
  {}

  datatype Prefix = Prefix(version: nat, timelock: Timelock, inputs: seq<Input>, outputs: seq<Output>,
                           extra: seq<Byte>) {
    /** Outputs have no amount, unless the transaction is a miner's or of the first version. */
    predicate Rct()
      requires inputs != []
    {
      !inputs[0].Gen? && version == 2
    }
  }

  /** The prefixes which may be read. */
  ghost predicate ValidPrefix(p: Prefix) {
    && 1 <= p.version <= 2 && U64(ToRaw(p.timelock)) && FromRaw(ToRaw(p.timelock)) == p.timelock
    && p.inputs != [] && ValidVec(ValidInput, p.inputs) && ValidVec(OutputValid(p.Rct()), p.outputs)
    && ValidVec(AnyByte, p.extra)
  }

  function WritePrefix(p: Prefix): seq<Byte> {
    Varint(p.version) + (Varint(ToRaw(p.timelock)) + WriteBody(p))
  }

  function ReadBody(version: nat, timelock: Timelock, bytes: seq<Byte>): Read<Prefix> {
    match ReadVec(ReadInput, bytes)
    case None => None
    case Some((inputs, rest)) =>
      if inputs == [] then None
      else
        var rct := !inputs[0].Gen? && version == 2;
        match ReadTail(rct, rest)
        case None => None
        case Some(((outputs, extra), end)) => Some((Prefix(version, timelock, inputs, outputs, extra), end))
  }

  function ReadTail(rct: bool, bytes: seq<Byte>): Read<(seq<Output>, seq<Byte>)> {
    match ReadVec(OutputReader(rct), bytes)
    case None => None
    case Some((outputs, more)) =>
      match ReadVec(ReadByte, more)
      case None => None
      case Some((extra, end)) => Some(((outputs, extra), end))
  }

  lemma TailExact(rct: bool, bytes: seq<Byte>)
    ensures match ReadTail(rct, bytes)
            case None => true
            case Some(((outputs, extra), rest)) =>
              && ValidVec(OutputValid(rct), outputs) && ValidVec(AnyByte, extra)
              && bytes == (WriteVec(WriteOutput, outputs) + WriteVec(WriteByte, extra)) + rest
  {
    var r := ReadTail(rct, bytes);
    if r.Some? {
      OutputCodec(rct);
      VecExact(OutputReader(rct), WriteOutput, OutputValid(rct), bytes);
      var (outputs, more) := ReadVec(OutputReader(rct), bytes).value;
      ByteCodec();
      VecExact(ReadByte, WriteByte, AnyByte, more);
      Associate(WriteVec(WriteOutput, outputs), WriteVec(WriteByte, r.value.0.1), r.value.1);
    }
  }

  lemma Associate(a: seq<Byte>, b: seq<Byte>, c: seq<Byte>)
    ensures a + (b + c) == (a + b) + c
  {}

  function ReadPrefix(bytes: seq<Byte>): Read<Prefix> {
    match ReadU64(bytes)
    case None => None
    case Some((version, rest)) =>
      if version == 0 || version > 2 then None
      else
        match ReadU64(rest)
        case None => None
        case Some((raw, more)) => ReadBody(version, FromRaw(raw), more)
  }

  function WriteBody(p: Prefix): seq<Byte> {
    WriteVec(WriteInput, p.inputs) + (WriteVec(WriteOutput, p.outputs) + WriteVec(WriteByte, p.extra))
  }

  // The bytes themselves

  /** What distinguishes the kinds of inputs and outputs, and that nothing else is read. */
  lemma KindBytes(height: nat, amount: Option<nat>, offsets: seq<nat>, image: seq<Byte>, output: Output,
                  bytes: seq<Byte>)
    ensures WriteInput(Gen(height))[0] == 255 && WriteInput(ToKey(amount, offsets, image))[0] == 2
    ensures WriteOutput(output)[|Varint(AmountOf(output.amount))|] == if output.viewTag.Some? then 3 else 2
    ensures bytes != [] && bytes[0] != 255 && bytes[0] != 2 ==> ReadInput(bytes).None?
  {}

  lemma VarintBytes()
    ensures Varint(0) == [0] && Varint(127) == [127] && Varint(128) == [128, 1] && Varint(300) == [172, 2]
  {
    assert Varint(1) == [1] && Varint(2) == [2];
  }

  lemma InputBytes(image: seq<Byte>)
    ensures WriteInput(ToKey(Some(300), [1, 128], image)) == [2, 172, 2, 2, 1, 128, 1] + image
    ensures WriteVec(WriteInput, [Gen(7)]) == [1, 255, 7]
  {
    VarintBytes();
    assert [1, 128][1..] == [128] && [128][1..] == [];
    assert WriteMany(Varint, [128]) == [128, 1];
    assert WriteMany(Varint, [1, 128]) == [1, 128, 1];
    assert WriteVec(Varint, [1, 128]) == [2, 1, 128, 1];
    assert WriteMany(WriteInput, [Gen(7)]) == [255, 7];
  }

  lemma OutputBytes(key: seq<Byte>)
    ensures WriteVec(WriteOutput, [Output(Some(300), key, Some(9))]) == [1, 172, 2, 3] + key + [9]
  {
    VarintBytes();
    var output := Output(Some(300), key, Some(9));
    assert WriteOutput(output) == [172, 2, 3] + key + [9];
    assert WriteMany(WriteOutput, [output]) == WriteOutput(output) + [];
  }

  lemma ExtraBytes()
    ensures WriteVec(WriteByte, [3, 4]) == [2, 3, 4]
  {
    assert [3, 4][1..] == [4] && [4][1..] == [];
    assert WriteMany(WriteByte, [4]) == [4];
    assert WriteMany(WriteByte, [3, 4]) == [3, 4];
  }

  /** A transaction's prefix, byte by byte: the order of its fields, and of those of its inputs and outputs. */
  lemma PrefixBytes(image: seq<Byte>, key: seq<Byte>)
    ensures WriteInput(ToKey(Some(300), [1, 128], image)) == [2, 172, 2, 2, 1, 128, 1] + image
    ensures var p := Prefix(2, Block(5), [Gen(7)], [Output(Some(300), key, Some(9))], [3, 4]);
            WritePrefix(p) == [2, 5, 1, 255, 7, 1, 172, 2, 3] + key + [9, 2, 3, 4]
  {
    InputBytes(image);
    OutputBytes(key);
    ExtraBytes();
    var p := Prefix(2, Block(5), [Gen(7)], [Output(Some(300), key, Some(9))], [3, 4]);
    assert WriteBody(p) == [1, 255, 7] + (([1, 172, 2, 3] + key + [9]) + [2, 3, 4]);
    assert Varint(2) == [2] && Varint(5) == [5];
  }

  /** With a codec, what is written reads back exactly if it is valid. */
  lemma ReadsBack<T(!new)>(read: seq<Byte> -> Read<T>, write: T -> seq<Byte>, valid: T -> bool, x: T,
                           rest: seq<Byte>)
    requires Codec(read, write, valid)
    ensures read(write(x) + rest) == Some((x, rest)) <==> valid(x)
  {
    assert Exact(read, write, valid, write(x) + rest);
  }

  lemma BodyRead(p: Prefix, rest: seq<Byte>)
    requires ValidPrefix(p)
    ensures ReadBody(p.version, p.timelock, WriteBody(p) + rest) == Some((p, rest))
  {
    var tail := WriteVec(WriteOutput, p.outputs) + WriteVec(WriteByte, p.extra);
    InputCodec();
    Associate(WriteVec(WriteInput, p.inputs), tail, rest);
    VecRead(ReadInput, WriteInput, ValidInput, p.inputs, tail + rest);
    TailRead(p.Rct(), p.outputs, p.extra, rest);
  }

  lemma TailRead(rct: bool, outputs: seq<Output>, extra: seq<Byte>, rest: seq<Byte>)
    requires ValidVec(OutputValid(rct), outputs) && ValidVec(AnyByte, extra)
    ensures ReadTail(rct, (WriteVec(WriteOutput, outputs) + WriteVec(WriteByte, extra)) + rest) ==
              Some(((outputs, extra), rest))
  {
    OutputCodec(rct);
    ByteCodec();
    Associate(WriteVec(WriteOutput, outputs), WriteVec(WriteByte, extra), rest);
    VecRead(OutputReader(rct), WriteOutput, OutputValid(rct), outputs, WriteVec(WriteByte, extra) + rest);
    VecRead(ReadByte, WriteByte, AnyByte, extra, rest);
  }

  lemma BodyExact(version: nat, timelock: Timelock, bytes: seq<Byte>)
    requires 1 <= version <= 2 && U64(ToRaw(timelock)) && FromRaw(ToRaw(timelock)) == timelock
    ensures match ReadBody(version, timelock, bytes)
            case None => true
            case Some((p, rest)) =>
              ValidPrefix(p) && p.version == version && p.timelock == timelock && bytes == WriteBody(p) + rest
  {
    var r := ReadBody(version, timelock, bytes);
    if r.Some? {
      InputCodec();
      VecExact(ReadInput, WriteInput, ValidInput, bytes);
      var (inputs, rest) := ReadVec(ReadInput, bytes).value;
      TailExact(!inputs[0].Gen? && version == 2, rest);
      var p := r.value.0;
      var tail := WriteVec(WriteOutput, p.outputs) + WriteVec(WriteByte, p.extra);
      Associate(WriteVec(WriteInput, inputs), tail, r.value.1);
    }
  }

  /** Every valid prefix written is read back, and any prefix accepted is valid and writes to exactly the bytes
      read. */
  lemma PrefixCodec()
    ensures Codec(ReadPrefix, WritePrefix, ValidPrefix)
  {
    forall p: Prefix, rest: seq<Byte> | ValidPrefix(p) ensures ReadPrefix(WritePrefix(p) + rest) == Some((p, rest)) {
      PrefixRead(p, rest);
    }
    forall bytes: seq<Byte> ensures Exact(ReadPrefix, WritePrefix, ValidPrefix, bytes) { PrefixExact(bytes); }
  }

  lemma PrefixRead(p: Prefix, rest: seq<Byte>)
    requires ValidPrefix(p)
    ensures ReadPrefix(WritePrefix(p) + rest) == Some((p, rest))
  {
    var raw, body := Varint(ToRaw(p.timelock)), WriteBody(p);
    Pow2Exceeds(64);
    Associate(raw, body, rest);
    Associate(Varint(p.version), raw + body, rest);
    VarintRead(64, p.version, 0, raw + (body + rest));
    VarintRead(64, ToRaw(p.timelock), 0, body + rest);
    BodyRead(p, rest);
  }

  lemma PrefixExact(bytes: seq<Byte>)
    ensures Exact(ReadPrefix, WritePrefix, ValidPrefix, bytes)
  {
    var r := ReadPrefix(bytes);
    if r.Some? {
      var (version, rest) := ReadU64(bytes).value;
      ReadIsVarint(64, bytes, 0, version, rest);
      var (raw, more) := ReadU64(rest).value;
      ReadIsVarint(64, rest, 0, raw, more);
      BodyExact(version, FromRaw(raw), more);
      var p, end := r.value.0, r.value.1;
      Associate(Varint(raw), WriteBody(p), end);
      Associate(Varint(version), Varint(raw) + WriteBody(p), end);
    }
  }
}
