/**
 * The binary recording format of src/persistence/market_data_recorder.cpp: little-endian records
 * behind a 12-byte header, the recorder's writer thread and the replayer.  Doubles are written as
 * their 64-bit patterns, so a level holds patterns.  Reads past the end of the file leave C++
 * variables uninitialised; the model reports them as `Broken` and says nothing about the values.
 */
module Recorder {
  import opened Common

  type Byte = x: nat | x < 256
  type U32 = x: nat | x < 0x1_0000_0000

  const MAGIC: U32 := 0x424F444D
  const VERSION: U32 := 1
  const BINARY: Byte := 0
  const HEADER_SIZE: nat := 12

  datatype Level = Level(price: U64, quantity: U64, orders: U32)

  datatype Update = Update(
    exchange: Byte, symbol: seq<Byte>, timestamp: U64, updateId: U64, bids: seq<Level>, asks: seq<Level>)

  // ------------------------------------------------------------------- numbers

  /** The `k` low bytes of `v`, least significant first. */
  function Le(v: nat, k: nat): (r: seq<Byte>)
    ensures |r| == k
  {
    if k == 0 then [] else [v % 256] + Le(v / 256, k - 1)
  }

  function Range(k: nat): (r: nat)
    ensures r > 0
  {
    if k == 0 then 1 else 256 * Range(k - 1)
  }

  function Unle(b: seq<Byte>): (v: nat)
    ensures v < Range(|b|)
  {
    if b == [] then 0 else b[0] + 256 * Unle(b[1..])
  }

  lemma {:induction false} LeRoundTrip(v: nat, k: nat)
    requires v < Range(k)
    ensures Unle(Le(v, k)) == v
  {
    if k > 0 {
      LeRoundTrip(v / 256, k - 1);
      assert Le(v, k)[1..] == Le(v / 256, k - 1);
    }
  }

  /** The number without its `i` lowest bytes. */
  ghost function Shifted(v: nat, i: nat): nat {
    if i == 0 then v else Shifted(v, i - 1) / 256
  }

  lemma {:induction false} ShiftedOnce(v: nat, i: nat)
    ensures Shifted(v / 256, i) == Shifted(v, i + 1)
  {
    if i > 0 { ShiftedOnce(v, i - 1); }
  }

  /** The lowest byte of a number comes first, the next lowest next, and so on. */
  lemma {:induction false} ByteOf(v: nat, k: nat, i: nat)
    requires i < k
    ensures Le(v, k)[i] == Shifted(v, i) % 256
  {
    if i > 0 {
      ByteOf(v / 256, k - 1, i - 1);
      ShiftedOnce(v, i - 1);
    }
  }

  lemma Ranges()
    ensures Range(1) == 0x100 && Range(2) == 0x1_0000 && Range(4) == 0x1_0000_0000
    ensures Range(8) == 0x1_0000_0000_0000_0000
  {
    assert Range(5) == 256 * Range(4);
    assert Range(6) == 256 * Range(5);
    assert Range(7) == 256 * Range(6);
  }

  datatype Parsed<+T> = Short | Parsed(value: T, rest: seq<Byte>)

  function ReadNumber(b: seq<Byte>, k: nat): Parsed<nat> {
    if |b| < k then Short else Parsed(Unle(b[..k]), b[k..])
  }

  lemma ReadNumberBack(v: nat, k: nat, rest: seq<Byte>)
    requires v < Range(k)
    ensures ReadNumber(Le(v, k) + rest, k) == Parsed(v, rest)
  {
    LeRoundTrip(v, k);
    assert (Le(v, k) + rest)[..k] == Le(v, k);
  }

  // -------------------------------------------------------------------- levels

  function WriteLevel(l: Level): (r: seq<Byte>)
    ensures |r| == 20
  {
    Le(l.price, 8) + (Le(l.quantity, 8) + Le(l.orders, 4))
  }

  /** One level: two 8-byte patterns and a 4-byte count. */
  function ReadLevel(b: seq<Byte>): Parsed<Level> {
    if |b| < 20 then Short
    else
      Ranges();
      Parsed(Level(Unle(b[..8]), Unle(b[8..16]), Unle(b[16..20])), b[20..])
  }

  lemma ReadLevelBack(l: Level, rest: seq<Byte>)
    ensures ReadLevel(WriteLevel(l) + rest) == Parsed(l, rest)
  {
    var b := WriteLevel(l) + rest;
    Ranges();
    LeRoundTrip(l.price, 8);
    LeRoundTrip(l.quantity, 8);
    LeRoundTrip(l.orders, 4);
    assert b[..8] == Le(l.price, 8) && b[8..16] == Le(l.quantity, 8) && b[16..20] == Le(l.orders, 4);
    assert b[20..] == rest;
  }

  function WriteLevels(ls: seq<Level>): (r: seq<Byte>)
    ensures |r| == 20 * |ls|
  {
    if ls == [] then [] else WriteLevel(ls[0]) + WriteLevels(ls[1..])
  }

  function ReadLevels(b: seq<Byte>, n: nat): (r: Parsed<seq<Level>>)
    ensures r.Parsed? ==> |r.value| == n && |r.rest| <= |b|
  {
    if n == 0 then Parsed([], b)
    else match ReadLevel(b)
      case Short => Short
      case Parsed(l, b1) =>
        match ReadLevels(b1, n - 1)
        case Short => Short
        case Parsed(ls, b2) => Parsed([l] + ls, b2)
  }

  lemma {:induction false} ReadLevelsBack(ls: seq<Level>, rest: seq<Byte>)
    ensures ReadLevels(WriteLevels(ls) + rest, |ls|) == Parsed(ls, rest)
  {
    if ls == [] {
      assert WriteLevels(ls) + rest == rest;
    } else {
      var tail := WriteLevels(ls[1..]) + rest;
      assert WriteLevels(ls) + rest == WriteLevel(ls[0]) + tail;
      ReadLevelBack(ls[0], tail);
      ReadLevelsBack(ls[1..], rest);
      assert [ls[0]] + ls[1..] == ls;
    }
  }

  /** One side: a 16-bit count, which the cast wraps, then all the levels. */
  function WriteSide(ls: seq<Level>): seq<Byte> {
    Le(|ls| % 0x1_0000, 2) + WriteLevels(ls)
  }

  function ReadSide(b: seq<Byte>): (r: Parsed<seq<Level>>)
    ensures r.Parsed? ==> |r.value| < 0x1_0000 && |r.rest| <= |b|
  {
    Ranges();
    match ReadNumber(b, 2)
    case Short => Short
    case Parsed(n, b1) => ReadLevels(b1, n)
  }

  /** A number in front of two parts reads back to it, and leaves both. */
  lemma ReadFirstBack(v: nat, k: nat, a: seq<Byte>, b: seq<Byte>)
    requires v < Range(k)
    ensures ReadNumber(Le(v, k) + a + b, k) == Parsed(v, a + b)
  {
    assert Le(v, k) + a + b == Le(v, k) + (a + b);
    ReadNumberBack(v, k, a + b);
  }

  lemma CountThenLevels(b: seq<Byte>, n: nat, levels: seq<Byte>)
    requires ReadNumber(b, 2) == Parsed(n, levels)
    ensures ReadSide(b) == ReadLevels(levels, n)
  {
  }

  /** The count fits its field, so it is written as it is and reads back. */
  lemma CountBack(ls: seq<Level>, levels: seq<Byte>, rest: seq<Byte>)
    requires |ls| < 0x1_0000
    ensures ReadNumber(Le(|ls| % 0x1_0000, 2) + levels + rest, 2) == Parsed(|ls|, levels + rest)
  {
    TwoBytes();
    ReadFirstBack(|ls|, 2, levels, rest);
  }

  lemma TwoBytes()
    ensures Range(2) == 0x1_0000
  {
    assert Range(1) == 256 * Range(0);
  }

  lemma ReadSideBack(ls: seq<Level>, rest: seq<Byte>)
    requires |ls| < 0x1_0000
    ensures ReadSide(WriteSide(ls) + rest) == Parsed(ls, rest)
  {
    CountBack(ls, WriteLevels(ls), rest);
    CountThenLevels(WriteSide(ls) + rest, |ls|, WriteLevels(ls) + rest);
    ReadLevelsBack(ls, rest);
  }

  // ------------------------------------------------------------------- updates

  /** Timestamp, exchange, and the symbol cut to its length modulo 256. */
  function WriteHead(u: Update): seq<Byte> {
    Le(u.timestamp, 8) + ([u.exchange, |u.symbol| % 256] + u.symbol[..|u.symbol| % 256])
  }

  datatype Head = Head(timestamp: U64, exchange: Byte, symbol: seq<Byte>)

  function ReadHead(b: seq<Byte>): (r: Parsed<Head>)
    ensures r.Parsed? ==> |r.value.symbol| < 256 && |r.rest| < |b|
  {
    if |b| < 10 then Short
    else
      var n: nat := b[9];
      Ranges();
      if |b| < 10 + n then Short else Parsed(Head(Unle(b[..8]), b[8], b[10..10 + n]), b[10 + n..])
  }

  lemma ReadHeadBack(u: Update, rest: seq<Byte>)
    ensures ReadHead(WriteHead(u) + rest) == Parsed(Head(u.timestamp, u.exchange, u.symbol[..|u.symbol| % 256]), rest)
  {
    var b, n := WriteHead(u) + rest, |u.symbol| % 256;
    Ranges();
    LeRoundTrip(u.timestamp, 8);
    assert b[..8] == Le(u.timestamp, 8) && b[8] == u.exchange && b[9] == n;
    assert b[10..10 + n] == u.symbol[..n] && b[10 + n..] == rest;
  }

  /** write_binary */
  function WriteUpdate(u: Update): seq<Byte> {
    WriteHead(u) + (WriteSide(u.bids) + WriteSide(u.asks))
  }

  datatype Read = End | Broken | Got(update: Update, rest: seq<Byte>)

  /** read_binary: the end of the file is noticed on the timestamp only. */
  function ReadUpdate(b: seq<Byte>): (r: Read)
    ensures r.Got? ==> |r.rest| < |b|
  {
    if |b| < 8 then End
    else match ReadHead(b)
      case Short => Broken
      case Parsed(h, b1) =>
        match ReadSide(b1)
        case Short => Broken
        case Parsed(bids, b2) =>
          match ReadSide(b2)
          case Short => Broken
          case Parsed(asks, b3) => Got(Update(h.exchange, h.symbol, h.timestamp, 0, bids, asks), b3)
  }

  /** What the format keeps of an update: no update id, and at most 255 bytes of symbol. */
  function Kept(u: Update): Update {
    u.(updateId := 0, symbol := u.symbol[..|u.symbol| % 256])
  }

  /** The update as a replay should deliver it. */
  function Cleared(u: Update): Update {
    u.(updateId := 0)
  }

  predicate Fits(u: Update) {
    |u.symbol| < 256 && |u.bids| < 0x1_0000 && |u.asks| < 0x1_0000
  }

  /** A long symbol is cut, but the reader stays in step with the writer. */
  lemma ReadUpdateBack(u: Update, rest: seq<Byte>)
    requires |u.bids| < 0x1_0000 && |u.asks| < 0x1_0000
    ensures ReadUpdate(WriteUpdate(u) + rest) == Got(Kept(u), rest)
  {
    var t2 := WriteSide(u.asks) + rest;
    var t1 := WriteSide(u.bids) + t2;
    assert WriteUpdate(u) + rest == WriteHead(u) + t1;
    ReadHeadBack(u, t1);
    ReadSideBack(u.bids, t2);
    ReadSideBack(u.asks, rest);
  }

  lemma {:induction false} LevelAt(ls: seq<Level>, j: nat)
    requires j < |ls|
    ensures WriteLevels(ls)[20 * j..20 * j + 20] == Le(ls[j].price, 8) + Le(ls[j].quantity, 8) + Le(ls[j].orders, 4)
  {
    if j == 0 {
      assert WriteLevels(ls)[..20] == WriteLevel(ls[0]);
    } else {
      LevelAt(ls[1..], j - 1);
      assert WriteLevels(ls)[20 * j..20 * j + 20] == WriteLevels(ls[1..])[20 * (j - 1)..20 * (j - 1) + 20];
    }
  }

  /** What is in a record, in order: timestamp, exchange, length of the symbol, symbol, number of bids,
      bids, number of asks, asks. */
  lemma RecordLayout(u: Update)
    ensures var n := |u.symbol| % 256;
            WriteUpdate(u) == Le(u.timestamp, 8) + [u.exchange] + [n] + u.symbol[..n]
                              + Le(|u.bids| % 0x1_0000, 2) + WriteLevels(u.bids)
                              + Le(|u.asks| % 0x1_0000, 2) + WriteLevels(u.asks)
  {
    var n := |u.symbol| % 256;
    var head, bids, asks := Le(u.timestamp, 8) + [u.exchange] + [n] + u.symbol[..n], WriteSide(u.bids), WriteSide(u.asks);
    assert WriteHead(u) == head;
    Reassociate(head, Le(|u.bids| % 0x1_0000, 2), WriteLevels(u.bids), Le(|u.asks| % 0x1_0000, 2), WriteLevels(u.asks));
  }

  lemma Reassociate(h: seq<Byte>, a: seq<Byte>, b: seq<Byte>, c: seq<Byte>, d: seq<Byte>)
    ensures h + ((a + b) + (c + d)) == h + a + b + c + d
  {
  }

  /** What is read always fits. */
  lemma ReadFits(b: seq<Byte>, u: Update)
    requires ReadUpdate(b).Got? && ReadUpdate(b).update == Cleared(u)
    ensures Fits(u)
  {
  }

  lemma KeptIfFits(u: Update)
    requires Fits(u)
    ensures Kept(u) == Cleared(u)
  {
    assert u.symbol[..|u.symbol|] == u.symbol;
  }

  /** One update survives the round trip exactly when its counts fit their fields. */
  lemma RoundTripIffFits(u: Update, rest: seq<Byte>)
    ensures ReadUpdate(WriteUpdate(u) + rest) == Got(Cleared(u), rest) <==> Fits(u)
  {
    if Fits(u) {
      ReadUpdateBack(u, rest);
      KeptIfFits(u);
    } else if ReadUpdate(WriteUpdate(u) + rest) == Got(Cleared(u), rest) {
      ReadFits(WriteUpdate(u) + rest, u);
    }
  }

  // ------------------------------------------------------------------- streams

  function WriteAll(us: seq<Update>): seq<Byte> {
    if us == [] then [] else WriteUpdate(us[0]) + WriteAll(us[1..])
  }

  function ClearedAll(us: seq<Update>): (r: seq<Update>)
    ensures |r| == |us|
  {
    if us == [] then [] else [Cleared(us[0])] + ClearedAll(us[1..])
  }

  /** What replay hands to its callback, and whether it came to a clean end of file. */
  datatype Replayed = Replayed(updates: seq<Update>, clean: bool)

  function Replay(b: seq<Byte>): Replayed
    decreases |b|
  {
    match ReadUpdate(b)
    case End => Replayed([], true)
    case Broken => Replayed([], false)
    case Got(u, rest) => var r := Replay(rest); Replayed([u] + r.updates, r.clean)
  }

  lemma {:induction false} ReplayBack(us: seq<Update>)
    requires forall u :: u in us ==> Fits(u)
    ensures Replay(WriteAll(us)) == Replayed(ClearedAll(us), true)
  {
    if us != [] {
      assert us[0] in us;
      RoundTripIffFits(us[0], WriteAll(us[1..]));
      ReplayBack(us[1..]);
    }
  }

  /** What a successful read says about the replay. */
  lemma ReplayFirst(b: seq<Byte>, u: Update, us: seq<Update>)
    requires Replay(b).updates == [u] + us
    ensures ReadUpdate(b).Got? && ReadUpdate(b).update == u && Replay(ReadUpdate(b).rest).updates == us
  {
    var r := Replay(b).updates;
    assert r[0] == u && r[1..] == us;
    if ReadUpdate(b).Got? {
      assert r[1..] == Replay(ReadUpdate(b).rest).updates;
    }
  }

  /** Nothing but fitting updates is ever replayed as recorded. */
  lemma {:induction false} ReplayOnlyFits(us: seq<Update>)
    requires Replay(WriteAll(us)).updates == ClearedAll(us)
    ensures forall u :: u in us ==> Fits(u)
  {
    if us != [] {
      var u, rest := us[0], WriteAll(us[1..]);
      ReplayFirst(WriteUpdate(u) + rest, Cleared(u), ClearedAll(us[1..]));
      ReadFits(WriteUpdate(u) + rest, u);
      RoundTripIffFits(u, rest);
      ReplayOnlyFits(us[1..]);
      assert us == [u] + us[1..];
    }
  }

  /** A list of updates is replayed as it was recorded, update ids apart, exactly when each fits. */
  lemma StreamRoundTrip(us: seq<Update>)
    ensures Replay(WriteAll(us)) == Replayed(ClearedAll(us), true) <==> forall u :: u in us ==> Fits(u)
  {
    if forall u :: u in us ==> Fits(u) {
      ReplayBack(us);
    }
    if Replay(WriteAll(us)) == Replayed(ClearedAll(us), true) {
      ReplayOnlyFits(us);
    }
  }

  // ------------------------------------------------------------ a file cut short

  lemma LevelWithMore(b: seq<Byte>, x: seq<Byte>)
    requires ReadLevel(b).Parsed?
    ensures ReadLevel(b + x) == Parsed(ReadLevel(b).value, ReadLevel(b).rest + x)
  {
    assert (b + x)[..8] == b[..8] && (b + x)[8..16] == b[8..16] && (b + x)[16..20] == b[16..20];
    assert (b + x)[20..] == b[20..] + x;
  }

  lemma {:induction false} LevelsWithMore(b: seq<Byte>, n: nat, x: seq<Byte>)
    requires ReadLevels(b, n).Parsed?
    ensures ReadLevels(b + x, n) == Parsed(ReadLevels(b, n).value, ReadLevels(b, n).rest + x)
    decreases n
  {
    if n > 0 {
      LevelWithMore(b, x);
      LevelsWithMore(ReadLevel(b).rest, n - 1, x);
    }
  }

  lemma NumberWithMore(b: seq<Byte>, k: nat, x: seq<Byte>)
    requires ReadNumber(b, k).Parsed?
    ensures ReadNumber(b + x, k) == Parsed(ReadNumber(b, k).value, ReadNumber(b, k).rest + x)
  {
    assert (b + x)[..k] == b[..k] && (b + x)[k..] == b[k..] + x;
  }

  lemma SideWithMore(b: seq<Byte>, x: seq<Byte>)
    requires ReadSide(b).Parsed?
    ensures ReadSide(b + x) == Parsed(ReadSide(b).value, ReadSide(b).rest + x)
  {
    NumberWithMore(b, 2, x);
    LevelsWithMore(ReadNumber(b, 2).rest, ReadNumber(b, 2).value, x);
  }

  lemma HeadWithMore(b: seq<Byte>, x: seq<Byte>)
    requires ReadHead(b).Parsed?
    ensures ReadHead(b + x) == Parsed(ReadHead(b).value, ReadHead(b).rest + x)
  {
    var n: nat := b[9];
    assert (b + x)[..8] == b[..8] && (b + x)[8] == b[8] && (b + x)[9] == b[9];
    assert (b + x)[10..10 + n] == b[10..10 + n] && (b + x)[10 + n..] == b[10 + n..] + x;
  }

  /** What has been read does not depend on what comes after it. */
  lemma UpdateWithMore(b: seq<Byte>, x: seq<Byte>)
    requires ReadUpdate(b).Got?
    ensures ReadUpdate(b + x) == Got(ReadUpdate(b).update, ReadUpdate(b).rest + x)
  {
    var b1 := ReadHead(b).rest;
    var b2 := ReadSide(b1).rest;
    HeadWithMore(b, x);
    SideWithMore(b1, x);
    SideWithMore(b2, x);
  }

  /** A record cut short is not read as an update: what is left of it is taken for the end of the file
      if that is less than a timestamp, and is broken otherwise. */
  lemma CutRecord(u: Update, k: nat)
    requires |u.bids| < 0x1_0000 && |u.asks| < 0x1_0000 && k < |WriteUpdate(u)|
    ensures ReadUpdate(WriteUpdate(u)[..k]) == if k < 8 then End else Broken
  {
    var w := WriteUpdate(u);
    var b, x := w[..k], w[k..];
    assert b + x == w && w + [] == w;
    ReadUpdateBack(u, []);
    if ReadUpdate(b).Got? {
      UpdateWithMore(b, x);
    }
  }

  /** A file whose last record is cut short replays the records before it, and comes to a clean end
      exactly if less than a timestamp is left of the last one. */
  lemma {:induction false} CutReplay(us: seq<Update>, u: Update, k: nat)
    requires Fits(u) && k < |WriteUpdate(u)| && forall v :: v in us ==> Fits(v)
    ensures Replay(WriteAll(us) + WriteUpdate(u)[..k]) == Replayed(ClearedAll(us), k < 8)
    decreases |us|
  {
    var cut := WriteUpdate(u)[..k];
    if us == [] {
      CutRecord(u, k);
      assert WriteAll(us) + cut == cut;
    } else {
      assert us[0] in us;
      assert WriteAll(us) + cut == WriteUpdate(us[0]) + (WriteAll(us[1..]) + cut);
      RoundTripIffFits(us[0], WriteAll(us[1..]) + cut);
      CutReplay(us[1..], u, k);
    }
  }

  lemma {:induction false} WriteAllPush(us: seq<Update>, u: Update)
    ensures WriteAll(us + [u]) == WriteAll(us) + WriteUpdate(u)
  {
    if us == [] {
      assert WriteAll([u]) == WriteUpdate(u) + WriteAll([]);
    } else {
      assert (us + [u])[1..] == us[1..] + [u];
      WriteAllPush(us[1..], u);
      assert WriteUpdate(us[0]) + (WriteAll(us[1..]) + WriteUpdate(u)) == WriteAll(us) + WriteUpdate(u);
    }
  }

  // -------------------------------------------------------------------- header

  function Header(format: Byte): (h: seq<Byte>)
    ensures |h| == HEADER_SIZE
  {
    Le(MAGIC, 4) + (Le(VERSION, 4) + [format, 0, 0, 0])
  }

  /** The twelve bytes of a header: the magic number and the version, low byte first, the format, and
      three zeros. */
  lemma HeaderBytes(format: Byte)
    ensures Header(format) == [0x4D, 0x44, 0x4F, 0x42, 1, 0, 0, 0, format, 0, 0, 0]
  {
    FourBytes(MAGIC);
    FourBytes(VERSION);
  }

  lemma FourBytes(v: nat)
    ensures Le(v, 4) == [v % 256, v / 256 % 256, v / 256 / 256 % 256, v / 256 / 256 / 256 % 256]
  {
    var v1, v2, v3 := v / 256, v / 256 / 256, v / 256 / 256 / 256;
    assert Le(v3, 1) == [v3 % 256] + Le(v3 / 256, 0);
    assert Le(v2, 2) == [v2 % 256] + Le(v3, 1);
    assert Le(v1, 3) == [v1 % 256] + Le(v2, 2);
    assert Le(v, 4) == [v % 256] + Le(v1, 3);
  }

  datatype Opening = Rejected | HeaderCut | Opened(format: Byte, rest: seq<Byte>)

  /** read_header of a replayer expecting `format`: only the magic number is checked, and only
      the binary format has a header. */
  function ReadHeader(b: seq<Byte>, format: Byte): Opening {
    if format != BINARY then Opened(format, b)
    else if |b| < 4 then HeaderCut
    else if Unle(b[..4]) != MAGIC then Rejected
    else if |b| < HEADER_SIZE then HeaderCut
    else Opened(b[8], b[HEADER_SIZE..])
  }

  lemma HeaderBack(format: Byte, rest: seq<Byte>)
    ensures ReadHeader(Header(format) + rest, BINARY) == Opened(format, rest)
  {
    var b := Header(format) + rest;
    Ranges();
    LeRoundTrip(MAGIC, 4);
    assert b[..4] == Le(MAGIC, 4);
    assert b[HEADER_SIZE..] == rest;
  }

  lemma UnleFour(b: seq<Byte>)
    requires |b| == 4
    ensures Unle(b) == b[0] as nat + 256 * (b[1] as nat) + 65536 * (b[2] as nat) + 16777216 * (b[3] as nat)
  {
    var b1, b2, b3 := b[1..], b[1..][1..], b[1..][1..][1..];
    assert Unle(b3) == b3[0] + 256 * Unle(b3[1..]) && b3[1..] == [];
    assert Unle(b2) == b2[0] + 256 * Unle(b3) && Unle(b1) == b1[0] + 256 * Unle(b2);
  }

  /** A binary file opens exactly if it has a whole header that begins with the magic number; its format
      is the ninth byte.  Another beginning is refused. */
  lemma OpensIff(b: seq<Byte>)
    ensures ReadHeader(b, BINARY).Opened? <==> |b| >= 12 && b[..4] == [0x4D, 0x44, 0x4F, 0x42]
    ensures ReadHeader(b, BINARY).Rejected? <==> |b| >= 4 && b[..4] != [0x4D, 0x44, 0x4F, 0x42]
    ensures ReadHeader(b, BINARY).Opened? ==> ReadHeader(b, BINARY) == Opened(b[8], b[12..])
  {
    if |b| >= 4 {
      UnleFour(b[..4]);
      var m := b[..4];
      assert m == [m[0], m[1], m[2], m[3]];
    }
  }

  /** The file of a recording: the header, then the updates. */
  ghost predicate FileOf(file: seq<Byte>, us: seq<Update>) {
    file == Header(BINARY) + WriteAll(us)
  }

  lemma FileGrows(file: seq<Byte>, us: seq<Update>, u: Update)
    requires FileOf(file, us)
    ensures FileOf(file + WriteUpdate(u), us + [u])
  {
    WriteAllPush(us, u);
  }

  // ----------------------------------------------------- recorder and replayer objects

  /** The file side of MarketDataRecorder, in binary format. */
  class FileRecorder {
    var recording: bool
    var file: seq<Byte>
    var bytesWritten: nat
    var totalUpdates: nat

    constructor ()
      ensures !recording && file == []
    {
      recording, file, bytesWritten, totalUpdates := false, [], 0, 0;
    }

    /** The file holds the header and `us`; the header does not count as written. */
    ghost predicate Holds(us: seq<Update>)
      reads this
    {
      FileOf(file, us) && totalUpdates == |us| && bytesWritten == |file| - HEADER_SIZE
    }

    /** `opens` says whether the file could be opened. */
    method Start(opens: bool) returns (ok: bool)
      modifies this
      ensures ok == (!old(recording) && opens)
      ensures recording == (old(recording) || opens)
      ensures ok ==> Holds([])
      ensures !ok ==> file == old(file) && bytesWritten == old(bytesWritten) && totalUpdates == old(totalUpdates)
    {
      if recording {
        return false;
      }
      if !opens {
        return false;
      }
      recording := true;
      file := Header(BINARY);
      bytesWritten := bytesWritten + HEADER_SIZE;
      totalUpdates, bytesWritten := 0, 0;
      return true;
    }

    method PutLevels(levels: seq<Level>)
      modifies this`file
      ensures file == old(file) + WriteLevels(levels)
    {
      var i := 0;
      ghost var before := file;
      assert levels[0..] == levels;
      while i < |levels|
        invariant i <= |levels|
        invariant before + WriteLevels(levels) == file + WriteLevels(levels[i..])
      {
        assert levels[i..][1..] == levels[i + 1..];
        file := file + WriteLevel(levels[i]);
        i := i + 1;
      }
    }

    method PutSide(levels: seq<Level>)
      modifies this`file
      ensures file == old(file) + WriteSide(levels)
    {
      file := file + Le(|levels| % 0x1_0000, 2);
      PutLevels(levels);
    }

    method WriteBinary(u: Update)
      modifies this`file, this`bytesWritten
      ensures file == old(file) + WriteUpdate(u)
      ensures bytesWritten == old(bytesWritten) + |WriteUpdate(u)|
    {
      var before := |file|;
      file := file + Le(u.timestamp, 8);
      file := file + [u.exchange, |u.symbol| % 256];
      file := file + u.symbol[..|u.symbol| % 256];
      PutSide(u.bids);
      PutSide(u.asks);
      bytesWritten := bytesWritten + (|file| - before);
    }

    /** The last loop of the writer thread: empty the queue into the file. */
    method Drain(queue: seq<Update>, ghost us: seq<Update>)
      requires Holds(us)
      modifies this
      ensures Holds(us + queue) && recording == old(recording)
    {
      var i := 0;
      assert us + queue[..0] == us;
      while i < |queue|
        invariant i <= |queue| && Holds(us + queue[..i]) && recording == old(recording)
      {
        assert us + queue[..i + 1] == us + queue[..i] + [queue[i]];
        FileGrows(file, us + queue[..i], queue[i]);
        WriteBinary(queue[i]);
        totalUpdates := totalUpdates + 1;
        i := i + 1;
      }
      assert queue[..|queue|] == queue;
    }
  }

  /** `done` levels read before those of `p`. */
  function After(done: seq<Level>, p: Parsed<seq<Level>>): Parsed<seq<Level>> {
    match p
    case Short => Short
    case Parsed(ls, b) => Parsed(done + ls, b)
  }

  /** MarketDataReplayer on an open file; `rest` is what has not been read. */
  class FileReplayer {
    var rest: seq<Byte>
    var format: Byte

    constructor (file: seq<Byte>, format: Byte)
      ensures rest == file && this.format == format
    {
      rest, this.format := file, format;
    }

    method Open() returns (o: Opening)
      modifies this
      ensures o == ReadHeader(old(rest), old(format))
      ensures o.Opened? ==> rest == o.rest && format == o.format
    {
      if format != BINARY {
        return Opened(format, rest);
      }
      if |rest| < 4 {
        return HeaderCut;
      }
      if Unle(rest[..4]) != MAGIC {
        return Rejected;
      }
      if |rest| < HEADER_SIZE {
        return HeaderCut;
      }
      format := rest[8];
      rest := rest[HEADER_SIZE..];
      return Opened(format, rest);
    }

    method TakeLevels(n: nat) returns (r: Parsed<seq<Level>>)
      modifies this`rest
      ensures r == ReadLevels(old(rest), n) && (r.Parsed? ==> rest == r.rest)
    {
      var done: seq<Level> := [];
      AfterNone(ReadLevels(rest, n));
      while |done| < n
        invariant |done| <= n
        invariant ReadLevels(old(rest), n) == After(done, ReadLevels(rest, n - |done|))
      {
        match ReadLevel(rest) {
          case Short => return Short;
          case Parsed(l, b) =>
            AfterMore(done, rest, n - |done|);
            done := done + [l];
            rest := b;
        }
      }
      assert done + [] == done;
      r := Parsed(done, rest);
    }

    method TakeSide() returns (r: Parsed<seq<Level>>)
      modifies this`rest
      ensures r == ReadSide(old(rest)) && (r.Parsed? ==> rest == r.rest)
    {
      match ReadNumber(rest, 2) {
        case Short => r := Short;
        case Parsed(n, b) =>
          rest := b;
          r := TakeLevels(n);
      }
    }

    method ReadBinary() returns (r: Read)
      modifies this`rest
      ensures r == ReadUpdate(old(rest)) && (r.Got? ==> rest == r.rest)
    {
      if |rest| < 8 {
        return End;
      }
      var head := ReadHead(rest);
      if head.Short? {
        return Broken;
      }
      rest := head.rest;
      var bids := TakeSide();
      if bids.Short? {
        return Broken;
      }
      var asks := TakeSide();
      if asks.Short? {
        return Broken;
      }
      var h := head.value;
      r := Got(Update(h.exchange, h.symbol, h.timestamp, 0, bids.value, asks.value), rest);
    }

    /** The replay loop: `updates` are the callbacks, in order. */
    method ReplayFile() returns (r: Replayed)
      modifies this`rest
      ensures r == Replay(old(rest))
    {
      var updates: seq<Update> := [];
      while true
        invariant Replay(old(rest)) == Replayed(updates + Replay(rest).updates, Replay(rest).clean)
        decreases |rest|
      {
        ghost var before := rest;
        var next := ReadBinary();
        match next {
          case End => return Replayed(updates, true);
          case Broken => return Replayed(updates, false);
          case Got(u, b) =>
            assert updates + Replay(before).updates == updates + [u] + Replay(b).updates;
            updates := updates + [u];
        }
      }
    }
  }

  lemma AfterNone(p: Parsed<seq<Level>>)
    ensures After([], p) == p
  {
    if p.Parsed? { assert [] + p.value == p.value; }
  }

  lemma AfterMore(done: seq<Level>, b: seq<Byte>, n: nat)
    requires n > 0 && ReadLevel(b).Parsed?
    ensures After(done, ReadLevels(b, n)) == After(done + [ReadLevel(b).value], ReadLevels(ReadLevel(b).rest, n - 1))
  {
    var p := ReadLevels(ReadLevel(b).rest, n - 1);
    if p.Parsed? {
      assert done + ([ReadLevel(b).value] + p.value) == done + [ReadLevel(b).value] + p.value;
    }
  }
}
