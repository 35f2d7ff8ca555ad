/**
 * The byte format of a saved QLink game (QLink/game/Serializer.hpp) as
 * functions on byte sequences: for each serialised type an encoder, the
 * bytes Serializer<T>::Write appends, and a decoder, which takes the bytes
 * Serializer<T>::Read consumes off the front of a stream and gives the value
 * it builds with the rest of the stream, or None when the stream runs out
 * first. The classes of LinkSerializer run the source's Write and Read on a
 * stream and are proved against these functions.
 */
module LinkCodec {
  import opened StdTypes
  import opened LinkGrid
  import opened LinkEffect
  import opened LinkTick
  import LinkGame

  /** A char of a binary stream, as the uint8_t it carries. */
  type Byte = x: nat | x < 256

  type Bytes = seq<Byte>

  /** What a decoder gives: the value read and the bytes left after it. */
  type Decoded<T> = Option<(T, Bytes)>

  // ---------------------------------------------------------------------------
  // Scalars

  /** Serializer<uint8_t>::Read: one byte, or nothing at the end of the stream. */
  function DecU8(s: Bytes): (r: Decoded<Byte>)
    ensures r.Some? <==> |s| > 0
    ensures r.Some? ==> [r.value.0] + r.value.1 == s
  {
    if |s| == 0 then None else Some((s[0], s[1..]))
  }

  /** Serializer<bool>::Write: byte 1 for true, 0 for false. */
  function EncBool(b: bool): Bytes {
    [if b then 1 else 0]
  }

  /** Serializer<bool>::Read: a byte, true when it is not zero. */
  function DecBool(s: Bytes): Decoded<bool> {
    var (v, rest) :- DecU8(s);
    Some((v != 0, rest))
  }

  /** 256^n. */
  function Pow256(n: nat): (p: nat)
    ensures p > 0
  {
    if n == 0 then 1 else 0x100 * Pow256(n - 1)
  }

  /** The n low bytes of v, the least significant first. */
  function LittleEndian(v: nat, n: nat): (r: Bytes)
    ensures |r| == n
  {
    if n == 0 then [] else [v % 0x100] + LittleEndian(v / 0x100, n - 1)
  }

  /** n bytes put back together, the first the least significant: a value below 256^n. */
  function DecLittleEndian(s: Bytes, n: nat): (r: Decoded<nat>)
    ensures r.Some? ==> r.value.0 < Pow256(n)
  {
    if n == 0 then Some((0, s))
    else
      var (b, r0) :- DecU8(s);
      var (v, r1) :- DecLittleEndian(r0, n - 1);
      Some((b + 0x100 * v, r1))
  }

  /** Serializer<uint32_t>::Write: four bytes, the least significant first. */
  function EncU32(v: U32): (r: Bytes)
    ensures |r| == 4
  {
    LittleEndian(v, 4)
  }

  /** Serializer<uint32_t>::Read: four bytes put back together with shifts and ors. */
  function DecU32(s: Bytes): Decoded<U32> {
    var (v, rest) :- DecLittleEndian(s, 4);
    assert Pow256(4) == UINT32_MOD;
    Some((v, rest))
  }

  /** Serializer<EffectType>::Write: the type's ordinal as a uint32_t. */
  function EncType(t: EffectType): Bytes {
    EncU32(Ordinal(t))
  }

  /** Serializer<EffectType>::Read: a uint32_t naming one of the five types. */
  function DecType(s: Bytes): Decoded<EffectType> {
    var (v, rest) :- DecU32(s);
    if v < EFFECT_NUM then Some((TypeAt(v), rest)) else None
  }

  /** Serializer<Coord>: x, then y. */
  function EncCoord(c: Coord): Bytes {
    EncU32(c.x) + EncU32(c.y)
  }

  function DecCoord(s: Bytes): Decoded<Coord> {
    var (x, r0) :- DecU32(s);
    var (y, r1) :- DecU32(r0);
    Some((Coord(x, y), r1))
  }

  /** Serializer<EffectBlock>: the coordinate, then the type. */
  function EncEffectBlock(e: EffectBlock): Bytes {
    EncCoord(e.coord) + EncType(e.kind)
  }

  function DecEffectBlock(s: Bytes): Decoded<EffectBlock> {
    var (c, r0) :- DecCoord(s);
    var (t, r1) :- DecType(r0);
    Some((EffectBlock(c, t), r1))
  }

  // ---------------------------------------------------------------------------
  // Containers, for any element codec

  /** The elements one after another: Serializer<std::array<T, S>>::Write, and the body of a vector. */
  function EncSeq<T>(xs: seq<T>, enc: T -> Bytes): Bytes {
    if |xs| == 0 then [] else enc(xs[0]) + EncSeq(xs[1..], enc)
  }

  /** n elements one after another: Serializer<std::array<T, n>>::Read, and the body of a vector. */
  function DecSeq<T>(n: nat, s: Bytes, dec: Bytes -> Decoded<T>): (r: Decoded<seq<T>>)
    ensures r.Some? ==> |r.value.0| == n
  {
    if n == 0 then Some(([], s))
    else
      var (x, r0) :- dec(s);
      var (xs, r1) :- DecSeq(n - 1, r0, dec);
      Some(([x] + xs, r1))
  }

  /** Serializer<std::vector<T>>::Write: the size cast to uint32_t, then the elements. */
  function EncVector<T>(xs: seq<T>, enc: T -> Bytes): Bytes {
    EncU32(|xs| % UINT32_MOD) + EncSeq(xs, enc)
  }

  /** Serializer<std::vector<T>>::Read: a uint32_t size, then that many elements. */
  function DecVector<T>(s: Bytes, dec: Bytes -> Decoded<T>): Decoded<seq<T>> {
    var (n, r0) :- DecU32(s);
    DecSeq(n, r0, dec)
  }

  /** Serializer<std::optional<T>>::Write: tag byte 1 and the value, or the tag byte 0 alone. */
  function EncOption<T>(o: Option<T>, enc: T -> Bytes): Bytes {
    if o.Some? then [1] + enc(o.value) else [0]
  }

  /** Serializer<std::optional<T>>::Read: a value follows any tag byte other than 0. */
  function DecOption<T>(s: Bytes, dec: Bytes -> Decoded<T>): Decoded<Option<T>> {
    var (tag, r0) :- DecU8(s);
    if tag != 0 then
      var (v, r1) :- dec(r0);
      Some((Some(v), r1))
    else Some((None, r0))
  }

  // ---------------------------------------------------------------------------
  // The game's records

  /** Serializer<EffectSet>: m_effects as a std::array of five uint32_t. */
  function EncEffectSet(e: EffectSet): Bytes {
    EncSeq(e.counts, EncU32)
  }

  function DecEffectSet(s: Bytes): Decoded<EffectSet> {
    var (cs, rest) :- DecSeq(EFFECT_NUM, s, DecU32);
    Some((EffectSet(cs), rest))
  }

  /** m_next_solution, a std::array<Coord, 2>. */
  function EncPair(p: (Coord, Coord)): Bytes {
    EncSeq([p.0, p.1], EncCoord)
  }

  function DecPair(s: Bytes): Decoded<(Coord, Coord)> {
    var (cs, rest) :- DecSeq(2, s, DecCoord);
    Some(((cs[0], cs[1]), rest))
  }

  /** Serializer<Player>::Write: position, activation, link joints, effect set, score; not m_update. */
  function EncPlayer(p: Player): Bytes {
    EncCoord(p.position) + EncOption(p.activation, EncCoord) + EncVector(p.joints, EncCoord)
    + EncEffectSet(p.effects) + EncU32(p.score)
  }

  /** Serializer<Player>::Read: the written fields, into a Player{} whose m_update is zero. */
  function DecPlayer(s: Bytes): Decoded<Player> {
    var (pos, r0) :- DecCoord(s);
    var (act, r1) :- DecOption(r0, DecCoord);
    var (joints, r2) :- DecVector(r1, DecCoord);
    var (e, r3) :- DecEffectSet(r2);
    var (score, r4) :- DecU32(r3);
    Some((Player(pos, act, joints, e, score, 0, 0), r4))
  }

  /** Serializer<Grid>: width, height, then the blocks as a vector. */
  function EncBoard(b: Board): Bytes {
    EncU32(b.width) + EncU32(b.height) + EncVector(b.blocks, EncU32)
  }

  /** Serializer<Grid>::Read: the three fields as found; the number of blocks is not checked against the sides. */
  function DecBoard(s: Bytes): Decoded<Board> {
    var (w, r0) :- DecU32(s);
    var (h, r1) :- DecU32(r0);
    var (blocks, r2) :- DecVector(r1, DecU32);
    Some((Board(w, h, blocks), r2))
  }

  /** kVersionStr, "QLink1.0", with the NUL that sizeof counts. */
  const HEADER: Bytes := [0x51, 0x4c, 0x69, 0x6e, 0x6b, 0x31, 0x2e, 0x30, 0x00]

  /** The fields of a Game up to the hint, in the order Serializer<Game> writes them. */
  function EncGameHead(g: GameState): Bytes {
    EncU32(g.time) + EncBoard(g.board) + EncVector(g.players, EncPlayer) + EncOption(g.nextSolution, EncPair)
  }

  /** The fields of a Game from the game over flag on. */
  function EncGameTail(g: GameState): Bytes {
    EncBool(g.over) + EncBool(g.showHint) + EncBool(g.paused)
    + EncVector(g.available, EncType) + EncEffectSet(g.effects) + EncEffectBlock(g.effectBlock)
  }

  /** The fields of a Game after the header; m_update is not written. */
  function EncGameBody(g: GameState): Bytes {
    EncGameHead(g) + EncGameTail(g)
  }

  /** Serializer<Game>::Write: the header, then the fields. */
  function EncGame(g: GameState): (r: Bytes)
    ensures |r| >= |HEADER| && r[..|HEADER|] == HEADER
  {
    HEADER + EncGameBody(g)
  }

  /** The first half of the fields of a Game. */
  function DecGameHead(s: Bytes): Decoded<(U32, Board, seq<Player>, Option<(Coord, Coord)>)> {
    var (time, r0) :- DecU32(s);
    var (b, r1) :- DecBoard(r0);
    var (ps, r2) :- DecVector(r1, DecPlayer);
    var (sol, r3) :- DecOption(r2, DecPair);
    Some(((time, b, ps, sol), r3))
  }

  /** The second half of the fields of a Game. */
  function DecGameTail(s: Bytes): Decoded<(bool, bool, bool, seq<EffectType>, EffectSet, EffectBlock)> {
    var (over, r0) :- DecBool(s);
    var (hint, r1) :- DecBool(r0);
    var (paused, r2) :- DecBool(r1);
    var (avail, r3) :- DecVector(r2, DecType);
    var (e, r4) :- DecEffectSet(r3);
    var (eb, r5) :- DecEffectBlock(r4);
    Some(((over, hint, paused, avail, e, eb), r5))
  }

  /** The fields of a Game after the header, into a Game{} whose m_update is clear. */
  function DecGameBody(s: Bytes): Decoded<GameState> {
    var (h, r0) :- DecGameHead(s);
    var (t, r1) :- DecGameTail(r0);
    Some((GameState(h.0, h.1, h.2, h.3, t.0, t.1, t.2, t.3, t.4, t.5, false, false), r1))
  }

  /** Serializer<Game>::Read: nine header bytes; the default Game when they are not kVersionStr, else the fields. */
  function DecGame(s: Bytes): Decoded<GameState> {
    if |s| < |HEADER| then None
    else if s[..|HEADER|] != HEADER then Some((LinkGame.Blank(), s[|HEADER|..]))
    else DecGameBody(s[|HEADER|..])
  }
}
