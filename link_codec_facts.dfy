/**
 * What the byte format of LinkCodec promises: each Read gives back what the
 * matching Write wrote, and leaves the stream just past it; a saved game
 * loads as the game it was, minus the inputs gathered for the next tick.
 */
module LinkCodecFacts {
  import opened StdTypes
  import opened LinkGrid
  import opened LinkEffect
  import opened LinkTick
  import opened LinkCodec

  // ---------------------------------------------------------------------------
  // Scalars

  /** A value below 256^n written as n bytes reads back. */
  lemma {:induction false} LittleEndianRoundTrip(v: nat, n: nat, rest: Bytes)
    requires v < Pow256(n)
    ensures DecLittleEndian(LittleEndian(v, n) + rest, n) == Some((v, rest))
  {
    if n > 0 {
      var tail := LittleEndian(v / 0x100, n - 1) + rest;
      assert LittleEndian(v, n) + rest == [v % 0x100] + tail;
      assert ([v % 0x100] + tail)[1..] == tail;
      assert v / 0x100 < Pow256(n - 1);
      LittleEndianRoundTrip(v / 0x100, n - 1, rest);
      var b: Byte := v % 0x100;
      assert DecU8([b] + tail) == Some((b, tail));
      assert DecLittleEndian(tail, n - 1) == Some((v / 0x100, rest));
      assert v % 0x100 + 0x100 * (v / 0x100) == v;
      assert DecLittleEndian([b] + tail, n) == Some((b + 0x100 * (v / 0x100), rest));
    } else {
      assert LittleEndian(v, n) + rest == rest;
    }
  }

  /** Any n bytes are the n-byte encoding of the value they read as. */
  lemma {:induction false} LittleEndianCanonical(s: Bytes, n: nat)
    requires |s| >= n
    ensures DecLittleEndian(s, n).Some?
    ensures s == LittleEndian(DecLittleEndian(s, n).value.0, n) + DecLittleEndian(s, n).value.1
  {
    if n > 0 {
      LittleEndianCanonical(s[1..], n - 1);
      var (w, r) := DecLittleEndian(s[1..], n - 1).value;
      var v := s[0] + 0x100 * w;
      assert v % 0x100 == s[0] && v / 0x100 == w;
      assert s == [s[0]] + s[1..];
    }
  }

  /** Appending is associative: the step that moves a decoder past one field. */
  lemma Assoc(a: Bytes, b: Bytes, c: Bytes)
    ensures (a + b) + c == a + (b + c)
  {
  }

  /** A uint32_t reads back as written. */
  lemma U32RoundTrip(v: U32, rest: Bytes)
    ensures DecU32(EncU32(v) + rest) == Some((v, rest))
  {
    assert Pow256(4) == UINT32_MOD;
    LittleEndianRoundTrip(v, 4, rest);
  }

  /** Every four bytes are the encoding of the uint32_t they read as. */
  lemma U32Canonical(s: Bytes)
    requires |s| >= 4
    ensures DecU32(s).Some? && s == EncU32(DecU32(s).value.0) + DecU32(s).value.1
  {
    LittleEndianCanonical(s, 4);
  }

  /** The four bytes of a uint32_t are its masked shifts: val & 0xff, (val >> 8) & 0xff, and so on. */
  lemma U32Bytes(v: U32)
    ensures EncU32(v) == [v % 0x100, v / 0x100 % 0x100, v / 0x1_0000 % 0x100, v / 0x100_0000 % 0x100]
  {
    var v1, v2, v3 := v / 0x100, v / 0x1_0000, v / 0x100_0000;
    assert v1 / 0x100 == v2 && v2 / 0x100 == v3 && v3 / 0x100 == 0;
    assert LittleEndian(v3, 1) == [v3 % 0x100] + LittleEndian(0, 0);
    assert LittleEndian(v2, 2) == [v2 % 0x100] + LittleEndian(v3, 1);
    assert LittleEndian(v1, 3) == [v1 % 0x100] + LittleEndian(v2, 2);
    assert LittleEndian(v, 4) == [v % 0x100] + LittleEndian(v1, 3);
  }

  /** Fewer than n bytes do not read as an n-byte value. */
  lemma {:induction false} LittleEndianShort(s: Bytes, n: nat)
    requires |s| < n
    ensures DecLittleEndian(s, n).None?
  {
    if |s| > 0 {
      LittleEndianShort(s[1..], n - 1);
    }
  }

  /** Four bytes read as a uint32_t are v0 | v1 << 8 | v2 << 16 | v3 << 24; fewer do not read. */
  lemma U32FromBytes(s: Bytes)
    ensures DecU32(s).Some? <==> |s| >= 4
    ensures |s| >= 4 ==> DecU32(s).value.1 == s[4..]
    ensures |s| >= 4 ==> DecU32(s).value.0 == (s[0] as nat) + 0x100 * (s[1] as nat) + 0x1_0000 * (s[2] as nat) + 0x100_0000 * (s[3] as nat)
  {
    if |s| >= 4 {
      var r := s[4..];
      var b0, b1, b2, b3: nat := s[0], s[1], s[2], s[3];
      assert DecLittleEndian(r, 0) == Some((0, r));
      assert DecLittleEndian(s[3..], 1).value == (b3, r);
      assert DecLittleEndian(s[2..], 2).value == (b2 + 0x100 * b3, r);
      assert DecLittleEndian(s[1..], 3).value == (b1 + 0x100 * (b2 + 0x100 * b3), r);
      assert DecLittleEndian(s, 4).value == (b0 + 0x100 * (b1 + 0x100 * (b2 + 0x100 * b3)), r);
    } else {
      LittleEndianShort(s, 4);
    }
  }

  /** A bool reads back as written. */
  lemma BoolRoundTrip(b: bool, rest: Bytes)
    ensures DecBool(EncBool(b) + rest) == Some((b, rest))
  {
    assert (EncBool(b) + rest)[1..] == rest;
  }

  /** An EffectType reads back as written; a uint32_t naming no type does not read. */
  lemma TypeRoundTrip(t: EffectType, rest: Bytes)
    ensures DecType(EncType(t) + rest) == Some((t, rest))
    ensures forall v: U32 :: v >= EFFECT_NUM ==> DecType(EncU32(v) + rest).None?
  {
    U32RoundTrip(Ordinal(t), rest);
    forall v: U32 | v >= EFFECT_NUM
      ensures DecType(EncU32(v) + rest).None?
    {
      U32RoundTrip(v, rest);
    }
  }

  /** A Coord reads back as written: x, then y. */
  lemma CoordRoundTrip(c: Coord, rest: Bytes)
    ensures DecCoord(EncCoord(c) + rest) == Some((c, rest))
  {
    U32RoundTrip(c.y, rest);
    assert EncCoord(c) + rest == EncU32(c.x) + (EncU32(c.y) + rest);
    U32RoundTrip(c.x, EncU32(c.y) + rest);
  }

  /** An EffectBlock reads back as written. */
  lemma EffectBlockRoundTrip(e: EffectBlock, rest: Bytes)
    ensures DecEffectBlock(EncEffectBlock(e) + rest) == Some((e, rest))
  {
    TypeRoundTrip(e.kind, rest);
    assert EncEffectBlock(e) + rest == EncCoord(e.coord) + (EncType(e.kind) + rest);
    CoordRoundTrip(e.coord, EncType(e.kind) + rest);
  }

  // ---------------------------------------------------------------------------
  // Containers

  /** Each element of xs written by enc reads back through dec as the matching element of ys. */
  ghost predicate ElementsRoundTrip<T>(xs: seq<T>, ys: seq<T>, enc: T -> Bytes, dec: Bytes -> Decoded<T>) {
    |xs| == |ys| && forall i, rest :: 0 <= i < |xs| ==> dec(enc(xs[i]) + rest) == Some((ys[i], rest))
  }

  /** Elements written one after another read back one after another. */
  lemma {:induction false} SeqRoundTrip<T>(xs: seq<T>, ys: seq<T>, enc: T -> Bytes, dec: Bytes -> Decoded<T>, rest: Bytes)
    requires ElementsRoundTrip(xs, ys, enc, dec)
    ensures DecSeq(|xs|, EncSeq(xs, enc) + rest, dec) == Some((ys, rest))
  {
    if |xs| > 0 {
      var tail := EncSeq(xs[1..], enc) + rest;
      assert EncSeq(xs, enc) + rest == enc(xs[0]) + tail;
      assert dec(enc(xs[0]) + tail) == Some((ys[0], tail));
      assert ElementsRoundTrip(xs[1..], ys[1..], enc, dec) by {
        forall i, r | 0 <= i < |xs[1..]|
          ensures dec(enc(xs[1..][i]) + r) == Some((ys[1..][i], r))
        {
          assert xs[1..][i] == xs[i + 1] && ys[1..][i] == ys[i + 1];
        }
      }
      SeqRoundTrip(xs[1..], ys[1..], enc, dec, rest);
      assert DecSeq(|xs| - 1, tail, dec) == Some((ys[1..], rest));
      assert [ys[0]] + ys[1..] == ys;
    } else {
      assert EncSeq(xs, enc) + rest == rest && ys == [];
    }
  }

  /** A vector of fewer than 2^32 elements reads back, its size included. */
  lemma VectorRoundTrip<T>(xs: seq<T>, ys: seq<T>, enc: T -> Bytes, dec: Bytes -> Decoded<T>, rest: Bytes)
    requires |xs| < UINT32_MOD && ElementsRoundTrip(xs, ys, enc, dec)
    ensures DecVector(EncVector(xs, enc) + rest, dec) == Some((ys, rest))
  {
    SeqRoundTrip(xs, ys, enc, dec, rest);
    assert EncVector(xs, enc) + rest == EncU32(|xs|) + (EncSeq(xs, enc) + rest);
    U32RoundTrip(|xs|, EncSeq(xs, enc) + rest);
  }

  /** An optional reads back as written, when its value does. */
  lemma OptionRoundTrip<T>(o: Option<T>, enc: T -> Bytes, dec: Bytes -> Decoded<T>, rest: Bytes)
    requires o.Some? ==> dec(enc(o.value) + rest) == Some((o.value, rest))
    ensures DecOption(EncOption(o, enc) + rest, dec) == Some((o, rest))
  {
    if o.Some? {
      assert (EncOption(o, enc) + rest)[1..] == enc(o.value) + rest;
    } else {
      assert (EncOption(o, enc) + rest)[1..] == rest;
    }
  }

  /** Writing a sequence in two parts writes the whole: the step of every Write loop. */
  lemma {:induction false} EncSeqAppend<T>(xs: seq<T>, ys: seq<T>, enc: T -> Bytes)
    ensures EncSeq(xs + ys, enc) == EncSeq(xs, enc) + EncSeq(ys, enc)
  {
    if |xs| > 0 {
      assert (xs + ys)[1..] == xs[1..] + ys;
      EncSeqAppend(xs[1..], ys, enc);
    } else {
      assert xs + ys == ys;
    }
  }

  /** Writing one more element appends its encoding. */
  lemma EncSeqSnoc<T>(xs: seq<T>, x: T, enc: T -> Bytes)
    ensures EncSeq(xs + [x], enc) == EncSeq(xs, enc) + enc(x)
  {
    EncSeqAppend(xs, [x], enc);
    assert EncSeq([x], enc) == enc(x) + EncSeq([x][1..], enc);
    assert enc(x) + EncSeq([x][1..], enc) == enc(x);
  }

  /** n chars read with istream::read are the next n bytes, when there are n. */
  lemma {:induction false} BytesRead(n: nat, s: Bytes)
    ensures DecSeq(n, s, DecU8) == if |s| < n then None else Some((s[..n], s[n..]))
  {
    if n > 0 && |s| > 0 {
      BytesRead(n - 1, s[1..]);
      if |s| >= n {
        assert [s[0]] + s[1..][..n - 1] == s[..n];
        assert s[1..][n - 1..] == s[n..];
      }
    }
  }

  /** Reading n + 1 elements is reading n, then one more: the step of every Read loop. */
  lemma {:induction false} DecSeqSnoc<T>(n: nat, s: Bytes, dec: Bytes -> Decoded<T>)
    ensures DecSeq(n + 1, s, dec) ==
      match DecSeq(n, s, dec)
      case None => None
      case Some((xs, r)) =>
        match dec(r)
        case None => None
        case Some((x, r1)) => Some((xs + [x], r1))
  {
    if n == 0 {
      match dec(s)
      case None =>
      case Some((x, r0)) =>
        assert [x] + [] == [] + [x];
    } else {
      match dec(s)
      case None =>
      case Some((x, r0)) =>
        DecSeqSnoc(n - 1, r0, dec);
        match DecSeq(n - 1, r0, dec)
        case None =>
        case Some((xs, r)) =>
          match dec(r)
          case None =>
          case Some((y, r1)) =>
            assert [x] + (xs + [y]) == ([x] + xs) + [y];
    }
  }

  // ---------------------------------------------------------------------------
  // The game's records

  /** The five counters of an EffectSet read back as written. */
  lemma EffectSetRoundTrip(e: EffectSet, rest: Bytes)
    ensures DecEffectSet(EncEffectSet(e) + rest) == Some((e, rest))
  {
    forall i, r | 0 <= i < |e.counts|
      ensures DecU32(EncU32(e.counts[i]) + r) == Some((e.counts[i], r))
    {
      U32RoundTrip(e.counts[i], r);
    }
    SeqRoundTrip(e.counts, e.counts, EncU32, DecU32, rest);
  }

  /** The hint pair reads back as written. */
  lemma PairRoundTrip(p: (Coord, Coord), rest: Bytes)
    ensures DecPair(EncPair(p) + rest) == Some((p, rest))
  {
    var cs := [p.0, p.1];
    forall i, r | 0 <= i < |cs|
      ensures DecCoord(EncCoord(cs[i]) + r) == Some((cs[i], r))
    {
      CoordRoundTrip(cs[i], r);
    }
    SeqRoundTrip(cs, cs, EncCoord, DecCoord, rest);
  }

  /** A list of coordinates reads back as written. */
  lemma CoordsRoundTrip(cs: seq<Coord>, rest: Bytes)
    requires |cs| < UINT32_MOD
    ensures DecVector(EncVector(cs, EncCoord) + rest, DecCoord) == Some((cs, rest))
  {
    forall i, r | 0 <= i < |cs|
      ensures DecCoord(EncCoord(cs[i]) + r) == Some((cs[i], r))
    {
      CoordRoundTrip(cs[i], r);
    }
    VectorRoundTrip(cs, cs, EncCoord, DecCoord, rest);
  }

  /** A player reads back as written, with no move pending: Read starts from Player{}. */
  lemma PlayerRoundTrip(p: Player, rest: Bytes)
    requires |p.joints| < UINT32_MOD
    ensures DecPlayer(EncPlayer(p) + rest) == Some((p.(dx := 0, dy := 0), rest))
  {
    var r3 := EncU32(p.score) + rest;
    var r2 := EncEffectSet(p.effects) + r3;
    var r1 := EncVector(p.joints, EncCoord) + r2;
    var r0 := EncOption(p.activation, EncCoord) + r1;
    var x2 := EncCoord(p.position) + EncOption(p.activation, EncCoord);
    var x3 := x2 + EncVector(p.joints, EncCoord);
    Assoc(x3 + EncEffectSet(p.effects), EncU32(p.score), rest);
    Assoc(x3, EncEffectSet(p.effects), r3);
    Assoc(x2, EncVector(p.joints, EncCoord), r2);
    Assoc(EncCoord(p.position), EncOption(p.activation, EncCoord), r1);
    CoordRoundTrip(p.position, r0);
    if p.activation.Some? {
      CoordRoundTrip(p.activation.value, r1);
    }
    OptionRoundTrip(p.activation, EncCoord, DecCoord, r1);
    CoordsRoundTrip(p.joints, r2);
    EffectSetRoundTrip(p.effects, r3);
    U32RoundTrip(p.score, rest);
  }

  /** A board of fewer than 2^32 cells reads back as written. */
  lemma BoardRoundTrip(b: Board, rest: Bytes)
    requires |b.blocks| < UINT32_MOD
    ensures DecBoard(EncBoard(b) + rest) == Some((b, rest))
  {
    var r1 := EncVector(b.blocks, EncU32) + rest;
    var r0 := EncU32(b.height) + r1;
    assert EncBoard(b) + rest == EncU32(b.width) + r0;
    U32RoundTrip(b.width, r0);
    U32RoundTrip(b.height, r1);
    forall i, r | 0 <= i < |b.blocks|
      ensures DecU32(EncU32(b.blocks[i]) + r) == Some((b.blocks[i], r))
    {
      U32RoundTrip(b.blocks[i], r);
    }
    VectorRoundTrip(b.blocks, b.blocks, EncU32, DecU32, rest);
  }

  /** Every vector of a game fits its uint32_t size. */
  predicate Storable(g: GameState) {
    |g.board.blocks| < UINT32_MOD && |g.players| < UINT32_MOD && |g.available| < UINT32_MOD
    && forall i :: 0 <= i < |g.players| ==> |g.players[i].joints| < UINT32_MOD
  }

  /** The players read back with no move pending. */
  lemma PlayersRoundTrip(g: GameState, rest: Bytes)
    requires Storable(g)
    ensures DecVector(EncVector(g.players, EncPlayer) + rest, DecPlayer) == Some((ClearedInputs(g).players, rest))
  {
    var ys := ClearedInputs(g).players;
    forall i, r | 0 <= i < |g.players|
      ensures DecPlayer(EncPlayer(g.players[i]) + r) == Some((ys[i], r))
    {
      PlayerRoundTrip(g.players[i], r);
    }
    VectorRoundTrip(g.players, ys, EncPlayer, DecPlayer, rest);
  }

  /** The fields up to the hint read back as written. */
  lemma GameHeadRoundTrip(g: GameState, rest: Bytes)
    requires Storable(g)
    ensures DecGameHead(EncGameHead(g) + rest) == Some(((g.time, g.board, ClearedInputs(g).players, g.nextSolution), rest))
  {
    var x2 := EncU32(g.time) + EncBoard(g.board);
    var x3 := x2 + EncVector(g.players, EncPlayer);
    var r3 := EncOption(g.nextSolution, EncPair) + rest;
    var r2 := EncVector(g.players, EncPlayer) + r3;
    var r1 := EncBoard(g.board) + r2;
    Assoc(x3, EncOption(g.nextSolution, EncPair), rest);
    Assoc(x2, EncVector(g.players, EncPlayer), r3);
    Assoc(EncU32(g.time), EncBoard(g.board), r2);
    U32RoundTrip(g.time, r1);
    BoardRoundTrip(g.board, r2);
    PlayersRoundTrip(g, r3);
    if g.nextSolution.Some? {
      PairRoundTrip(g.nextSolution.value, rest);
    }
    OptionRoundTrip(g.nextSolution, EncPair, DecPair, rest);
  }

  /** The fields from the game over flag on read back as written. */
  lemma GameTailRoundTrip(g: GameState, rest: Bytes)
    requires |g.available| < UINT32_MOD
    ensures DecGameTail(EncGameTail(g) + rest)
      == Some(((g.over, g.showHint, g.paused, g.available, g.effects, g.effectBlock), rest))
  {
    var x1 := EncBool(g.over) + EncBool(g.showHint);
    var x2 := x1 + EncBool(g.paused);
    var x3 := x2 + EncVector(g.available, EncType);
    var x4 := x3 + EncEffectSet(g.effects);
    var r4 := EncEffectBlock(g.effectBlock) + rest;
    var r3 := EncEffectSet(g.effects) + r4;
    var r2 := EncVector(g.available, EncType) + r3;
    var r1 := EncBool(g.paused) + r2;
    var r0 := EncBool(g.showHint) + r1;
    Assoc(x4, EncEffectBlock(g.effectBlock), rest);
    Assoc(x3, EncEffectSet(g.effects), r4);
    Assoc(x2, EncVector(g.available, EncType), r3);
    Assoc(x1, EncBool(g.paused), r2);
    Assoc(EncBool(g.over), EncBool(g.showHint), r1);
    BoolRoundTrip(g.over, r0);
    BoolRoundTrip(g.showHint, r1);
    BoolRoundTrip(g.paused, r2);
    forall i, r | 0 <= i < |g.available|
      ensures DecType(EncType(g.available[i]) + r) == Some((g.available[i], r))
    {
      TypeRoundTrip(g.available[i], r);
    }
    VectorRoundTrip(g.available, g.available, EncType, DecType, r3);
    EffectSetRoundTrip(g.effects, r4);
    EffectBlockRoundTrip(g.effectBlock, rest);
  }

  /**
   * A saved game loads as the game it was, with no second, pause toggle or
   * move pending: m_update is neither written nor read.
   */
  lemma GameRoundTrip(g: GameState, rest: Bytes)
    requires Storable(g)
    ensures DecGame(EncGame(g) + rest) == Some((ClearedInputs(g), rest))
  {
    var s := EncGame(g) + rest;
    Assoc(HEADER, EncGameBody(g), rest);
    Assoc(EncGameHead(g), EncGameTail(g), rest);
    assert s[..|HEADER|] == HEADER && s[|HEADER|..] == EncGameHead(g) + (EncGameTail(g) + rest);
    GameHeadRoundTrip(g, EncGameTail(g) + rest);
    GameTailRoundTrip(g, rest);
  }

  /** A stream that does not start with kVersionStr loads as the default game, whatever follows. */
  lemma ForeignStream(s: Bytes)
    requires |s| >= |HEADER| && s[..|HEADER|] != HEADER
    ensures DecGame(s) == Some((LinkGame.Blank(), s[|HEADER|..]))
    ensures DecGame(s).value.0.players == [] && !DecGame(s).value.0.over
  {
  }
}
