/**
 * Serializer<T>::Write and Serializer<T>::Read of QLink/game/Serializer.hpp,
 * run on streams: each Write appends to an output stream the bytes its
 * LinkCodec encoder gives, and each Read takes off an input stream the bytes
 * its LinkCodec decoder consumes. A read past the end of the input sets the
 * stream's fail bit, as std::istream::read does, and a stream that has failed
 * reads nothing more.
 */
module LinkSerializer {
  import opened StdTypes
  import opened LinkGrid
  import opened LinkEffect
  import opened LinkTick
  import opened LinkCodec
  import opened LinkCodecFacts
  import LinkGame

  /** An output stream: the bytes written to it so far. */
  class ByteSink {
    var bytes: Bytes

    constructor ()
      ensures bytes == []
    {
      bytes := [];
    }

    /** ostream::write of one char. */
    method Put(b: Byte)
      modifies this
      ensures bytes == old(bytes) + [b]
    {
      bytes := bytes + [b];
    }
  }

  /** An input stream: its contents, the read position and the fail bit. */
  class ByteSource {
    const data: Bytes
    var pos: nat
    var failed: bool

    predicate Valid()
      reads this
    {
      pos <= |data|
    }

    /** What is left to read. */
    function Rest(): Bytes
      requires Valid()
      reads this
    {
      data[pos..]
    }

    constructor (data: Bytes)
      ensures Valid() && this.data == data && pos == 0 && !failed
    {
      this.data, pos, failed := data, 0, false;
    }

    /** istream::read of one char: at the end of the stream, or once failed, the fail bit is set and nothing is read. */
    method Get() returns (b: Byte)
      requires Valid()
      modifies this
      ensures Valid()
      ensures failed == (old(failed) || |old(Rest())| == 0)
      ensures !failed ==> DecU8(old(Rest())) == Some((b, Rest()))
    {
      if failed || pos == |data| {
        failed := true;
        b := 0;
      } else {
        b := data[pos];
        pos := pos + 1;
      }
    }
  }

  /**
   * A Read on src that the decoder d specifies: the stream fails exactly
   * when it had failed or d finds too few bytes, and otherwise the value
   * read is d's and the stream is left where d stops.
   */
  twostate predicate Reads<T>(src: ByteSource, new d: Decoded<T>, new v: T)
    reads src
  {
    src.Valid()
    && src.failed == (old(src.failed) || d.None?)
    && (!src.failed ==> d == Some((v, src.Rest())))
  }

  // ---------------------------------------------------------------------------
  // Scalars

  /** Serializer<bool>::Write. */
  method WriteBool(o: ByteSink, b: bool)
    modifies o
    ensures o.bytes == old(o.bytes) + EncBool(b)
  {
    o.Put(if b then 1 else 0);
  }

  /** Serializer<bool>::Read. */
  method ReadBool(src: ByteSource) returns (b: bool)
    requires src.Valid()
    modifies src
    ensures Reads(src, DecBool(old(src.Rest())), b)
  {
    var v := src.Get();
    b := v != 0;
  }

  /** Serializer<uint32_t>::Write: (val >> 8k) & 0xff for k = 0 to 3. */
  method WriteU32(o: ByteSink, v: U32)
    modifies o
    ensures o.bytes == old(o.bytes) + EncU32(v)
  {
    o.Put(v % 0x100);
    o.Put(v / 0x100 % 0x100);
    o.Put(v / 0x1_0000 % 0x100);
    o.Put(v / 0x100_0000 % 0x100);
    U32Bytes(v);
  }

  /** Serializer<uint32_t>::Read: v0 | v1 << 8 | v2 << 16 | v3 << 24. */
  method ReadU32(src: ByteSource) returns (v: U32)
    requires src.Valid()
    modifies src
    ensures Reads(src, DecU32(old(src.Rest())), v)
  {
    ghost var s := src.Rest();
    var v0, v1, v2, v3: nat;
    v0 := src.Get();
    v1 := src.Get();
    v2 := src.Get();
    v3 := src.Get();
    v := v0 + 0x100 * v1 + 0x1_0000 * v2 + 0x100_0000 * v3;
    U32FromBytes(s);
    if !src.failed {
      assert src.Rest() == s[4..];
    }
  }

  /** Serializer<EffectType>::Write. */
  method WriteType(o: ByteSink, t: EffectType)
    modifies o
    ensures o.bytes == old(o.bytes) + EncType(t)
  {
    WriteU32(o, Ordinal(t));
  }

  /**
   * Serializer<EffectType>::Read. A value naming none of the five types
   * sets the fail bit here; the source casts it to an EffectType all the same.
   */
  method ReadType(src: ByteSource) returns (t: EffectType)
    requires src.Valid()
    modifies src
    ensures Reads(src, DecType(old(src.Rest())), t)
  {
    var v := ReadU32(src);
    if v < EFFECT_NUM {
      t := TypeAt(v);
    } else {
      src.failed := true;
      t := Plus1S;
    }
  }

  /** Serializer<Coord>::Write. */
  method WriteCoord(o: ByteSink, c: Coord)
    modifies o
    ensures o.bytes == old(o.bytes) + EncCoord(c)
  {
    WriteU32(o, c.x);
    WriteU32(o, c.y);
  }

  /** Serializer<Coord>::Read. */
  method ReadCoord(src: ByteSource) returns (c: Coord)
    requires src.Valid()
    modifies src
    ensures Reads(src, DecCoord(old(src.Rest())), c)
  {
    var x := ReadU32(src);
    var y := ReadU32(src);
    c := Coord(x, y);
  }

  /** Serializer<EffectBlock>::Write. */
  method WriteEffectBlock(o: ByteSink, e: EffectBlock)
    modifies o
    ensures o.bytes == old(o.bytes) + EncEffectBlock(e)
  {
    WriteCoord(o, e.coord);
    WriteType(o, e.kind);
  }

  /** Serializer<EffectBlock>::Read. */
  method ReadEffectBlock(src: ByteSource) returns (e: EffectBlock)
    requires src.Valid()
    modifies src
    ensures Reads(src, DecEffectBlock(old(src.Rest())), e)
  {
    var c := ReadCoord(src);
    var t := ReadType(src);
    e := EffectBlock(c, t);
  }

  // ---------------------------------------------------------------------------
  // Elements one after another: the loops of Serializer<std::array<T, S>> and
  // Serializer<std::vector<T>>, for each element type the game stores in one

  /** The uint32_t elements of xs, one after another. */
  method WriteU32Seq(o: ByteSink, xs: seq<U32>)
    modifies o
    ensures o.bytes == old(o.bytes) + EncSeq(xs, EncU32)
  {
    for i := 0 to |xs|
      invariant o.bytes == old(o.bytes) + EncSeq(xs[..i], EncU32)
    {
      WriteU32(o, xs[i]);
      EncSeqSnoc(xs[..i], xs[i], EncU32);
      Assoc(old(o.bytes), EncSeq(xs[..i], EncU32), EncU32(xs[i]));
      assert xs[..i + 1] == xs[..i] + [xs[i]];
    }
    assert xs[..|xs|] == xs;
  }

  /** n uint32_t elements, one after another; a failed stream still gives n values. */
  method ReadU32Seq(src: ByteSource, n: nat) returns (xs: seq<U32>)
    requires src.Valid()
    modifies src
    ensures |xs| == n && Reads(src, DecSeq(n, old(src.Rest()), DecU32), xs)
  {
    ghost var s := src.Rest();
    xs := [];
    for k := 0 to n
      invariant |xs| == k && Reads(src, DecSeq(k, s, DecU32), xs)
    {
      var v := ReadU32(src);
      DecSeqSnoc(k, s, DecU32);
      xs := xs + [v];
    }
  }

  /** The Coord elements of xs, one after another. */
  method WriteCoordSeq(o: ByteSink, xs: seq<Coord>)
    modifies o
    ensures o.bytes == old(o.bytes) + EncSeq(xs, EncCoord)
  {
    for i := 0 to |xs|
      invariant o.bytes == old(o.bytes) + EncSeq(xs[..i], EncCoord)
    {
      WriteCoord(o, xs[i]);
      EncSeqSnoc(xs[..i], xs[i], EncCoord);
      Assoc(old(o.bytes), EncSeq(xs[..i], EncCoord), EncCoord(xs[i]));
      assert xs[..i + 1] == xs[..i] + [xs[i]];
    }
    assert xs[..|xs|] == xs;
  }

  /** n Coord elements, one after another; a failed stream still gives n values. */
  method ReadCoordSeq(src: ByteSource, n: nat) returns (xs: seq<Coord>)
    requires src.Valid()
    modifies src
    ensures |xs| == n && Reads(src, DecSeq(n, old(src.Rest()), DecCoord), xs)
  {
    ghost var s := src.Rest();
    xs := [];
    for k := 0 to n
      invariant |xs| == k && Reads(src, DecSeq(k, s, DecCoord), xs)
    {
      var c := ReadCoord(src);
      DecSeqSnoc(k, s, DecCoord);
      xs := xs + [c];
    }
  }

  /** The EffectType elements of xs, one after another. */
  method WriteTypeSeq(o: ByteSink, xs: seq<EffectType>)
    modifies o
    ensures o.bytes == old(o.bytes) + EncSeq(xs, EncType)
  {
    for i := 0 to |xs|
      invariant o.bytes == old(o.bytes) + EncSeq(xs[..i], EncType)
    {
      WriteType(o, xs[i]);
      EncSeqSnoc(xs[..i], xs[i], EncType);
      Assoc(old(o.bytes), EncSeq(xs[..i], EncType), EncType(xs[i]));
      assert xs[..i + 1] == xs[..i] + [xs[i]];
    }
    assert xs[..|xs|] == xs;
  }

  /** n EffectType elements, one after another; a failed stream still gives n values. */
  method ReadTypeSeq(src: ByteSource, n: nat) returns (xs: seq<EffectType>)
    requires src.Valid()
    modifies src
    ensures |xs| == n && Reads(src, DecSeq(n, old(src.Rest()), DecType), xs)
  {
    ghost var s := src.Rest();
    xs := [];
    for k := 0 to n
      invariant |xs| == k && Reads(src, DecSeq(k, s, DecType), xs)
    {
      var t := ReadType(src);
      DecSeqSnoc(k, s, DecType);
      xs := xs + [t];
    }
  }

  /** The Player elements of xs, one after another. */
  method WritePlayerSeq(o: ByteSink, xs: seq<Player>)
    modifies o
    ensures o.bytes == old(o.bytes) + EncSeq(xs, EncPlayer)
  {
    for i := 0 to |xs|
      invariant o.bytes == old(o.bytes) + EncSeq(xs[..i], EncPlayer)
    {
      WritePlayer(o, xs[i]);
      EncSeqSnoc(xs[..i], xs[i], EncPlayer);
      Assoc(old(o.bytes), EncSeq(xs[..i], EncPlayer), EncPlayer(xs[i]));
      assert xs[..i + 1] == xs[..i] + [xs[i]];
    }
    assert xs[..|xs|] == xs;
  }

  /** n Player elements, one after another; a failed stream still gives n values. */
  method ReadPlayerSeq(src: ByteSource, n: nat) returns (xs: seq<Player>)
    requires src.Valid()
    modifies src
    ensures |xs| == n && Reads(src, DecSeq(n, old(src.Rest()), DecPlayer), xs)
  {
    ghost var s := src.Rest();
    xs := [];
    for k := 0 to n
      invariant |xs| == k && Reads(src, DecSeq(k, s, DecPlayer), xs)
    {
      var p := ReadPlayer(src);
      DecSeqSnoc(k, s, DecPlayer);
      xs := xs + [p];
    }
  }

  // ---------------------------------------------------------------------------
  // Vectors

  /** Serializer<std::vector<Block>>::Write: the size cast to uint32_t, then the elements. */
  method WriteBlocks(o: ByteSink, xs: seq<Block>)
    modifies o
    ensures o.bytes == old(o.bytes) + EncVector(xs, EncU32)
  {
    WriteU32(o, |xs| % UINT32_MOD);
    WriteU32Seq(o, xs);
    Assoc(old(o.bytes), EncU32(|xs| % UINT32_MOD), EncSeq(xs, EncU32));
  }

  /** Serializer<std::vector<Block>>::Read: a uint32_t size, then that many elements. */
  method ReadBlocks(src: ByteSource) returns (xs: seq<Block>)
    requires src.Valid()
    modifies src
    ensures Reads(src, DecVector(old(src.Rest()), DecU32), xs)
  {
    var size := ReadU32(src);
    xs := ReadU32Seq(src, size);
  }

  /** Serializer<std::vector<Coord>>::Write: the size cast to uint32_t, then the elements. */
  method WriteCoords(o: ByteSink, xs: seq<Coord>)
    modifies o
    ensures o.bytes == old(o.bytes) + EncVector(xs, EncCoord)
  {
    WriteU32(o, |xs| % UINT32_MOD);
    WriteCoordSeq(o, xs);
    Assoc(old(o.bytes), EncU32(|xs| % UINT32_MOD), EncSeq(xs, EncCoord));
  }

  /** Serializer<std::vector<Coord>>::Read: a uint32_t size, then that many elements. */
  method ReadCoords(src: ByteSource) returns (xs: seq<Coord>)
    requires src.Valid()
    modifies src
    ensures Reads(src, DecVector(old(src.Rest()), DecCoord), xs)
  {
    var size := ReadU32(src);
    xs := ReadCoordSeq(src, size);
  }

  /** Serializer<std::vector<EffectType>>::Write: the size cast to uint32_t, then the elements. */
  method WriteTypes(o: ByteSink, xs: seq<EffectType>)
    modifies o
    ensures o.bytes == old(o.bytes) + EncVector(xs, EncType)
  {
    WriteU32(o, |xs| % UINT32_MOD);
    WriteTypeSeq(o, xs);
    Assoc(old(o.bytes), EncU32(|xs| % UINT32_MOD), EncSeq(xs, EncType));
  }

  /** Serializer<std::vector<EffectType>>::Read: a uint32_t size, then that many elements. */
  method ReadTypes(src: ByteSource) returns (xs: seq<EffectType>)
    requires src.Valid()
    modifies src
    ensures Reads(src, DecVector(old(src.Rest()), DecType), xs)
  {
    var size := ReadU32(src);
    xs := ReadTypeSeq(src, size);
  }

  /** Serializer<std::vector<Player>>::Write: the size cast to uint32_t, then the elements. */
  method WritePlayers(o: ByteSink, xs: seq<Player>)
    modifies o
    ensures o.bytes == old(o.bytes) + EncVector(xs, EncPlayer)
  {
    WriteU32(o, |xs| % UINT32_MOD);
    WritePlayerSeq(o, xs);
    Assoc(old(o.bytes), EncU32(|xs| % UINT32_MOD), EncSeq(xs, EncPlayer));
  }

  /** Serializer<std::vector<Player>>::Read: a uint32_t size, then that many elements. */
  method ReadPlayers(src: ByteSource) returns (xs: seq<Player>)
    requires src.Valid()
    modifies src
    ensures Reads(src, DecVector(old(src.Rest()), DecPlayer), xs)
  {
    var size := ReadU32(src);
    xs := ReadPlayerSeq(src, size);
  }

  // ---------------------------------------------------------------------------
  // Optionals and the game's records

  /** Serializer<std::optional<Coord>>::Write. */
  method WriteOptCoord(o: ByteSink, a: Option<Coord>)
    modifies o
    ensures o.bytes == old(o.bytes) + EncOption(a, EncCoord)
  {
    o.Put(if a.Some? then 1 else 0);
    if a.Some? {
      WriteCoord(o, a.value);
    }
  }

  /** Serializer<std::optional<Coord>>::Read. */
  method ReadOptCoord(src: ByteSource) returns (a: Option<Coord>)
    requires src.Valid()
    modifies src
    ensures Reads(src, DecOption(old(src.Rest()), DecCoord), a)
  {
    var tag := src.Get();
    if tag != 0 {
      var c := ReadCoord(src);
      a := Some(c);
    } else {
      a := None;
    }
  }

  /** Serializer<std::array<Coord, 2>>::Write, for the hint. */
  method WritePair(o: ByteSink, p: (Coord, Coord))
    modifies o
    ensures o.bytes == old(o.bytes) + EncPair(p)
  {
    WriteCoordSeq(o, [p.0, p.1]);
  }

  /** Serializer<std::array<Coord, 2>>::Read. */
  method ReadPair(src: ByteSource) returns (p: (Coord, Coord))
    requires src.Valid()
    modifies src
    ensures Reads(src, DecPair(old(src.Rest())), p)
  {
    var cs := ReadCoordSeq(src, 2);
    p := (cs[0], cs[1]);
  }

  /** Serializer<std::optional<std::array<Coord, 2>>>::Write. */
  method WriteOptPair(o: ByteSink, a: Option<(Coord, Coord)>)
    modifies o
    ensures o.bytes == old(o.bytes) + EncOption(a, EncPair)
  {
    o.Put(if a.Some? then 1 else 0);
    if a.Some? {
      WritePair(o, a.value);
    }
  }

  /** Serializer<std::optional<std::array<Coord, 2>>>::Read. */
  method ReadOptPair(src: ByteSource) returns (a: Option<(Coord, Coord)>)
    requires src.Valid()
    modifies src
    ensures Reads(src, DecOption(old(src.Rest()), DecPair), a)
  {
    var tag := src.Get();
    if tag != 0 {
      var p := ReadPair(src);
      a := Some(p);
    } else {
      a := None;
    }
  }

  /** Serializer<EffectSet>::Write: m_effects as an array. */
  method WriteEffectSet(o: ByteSink, e: EffectSet)
    modifies o
    ensures o.bytes == old(o.bytes) + EncEffectSet(e)
  {
    WriteU32Seq(o, e.counts);
  }

  /** Serializer<EffectSet>::Read. */
  method ReadEffectSet(src: ByteSource) returns (e: EffectSet)
    requires src.Valid()
    modifies src
    ensures Reads(src, DecEffectSet(old(src.Rest())), e)
  {
    var cs := ReadU32Seq(src, EFFECT_NUM);
    e := EffectSet(cs);
  }

  /** Serializer<Player>::Write. */
  method WritePlayer(o: ByteSink, p: Player)
    modifies o
    ensures o.bytes == old(o.bytes) + EncPlayer(p)
  {
    ghost var b0 := o.bytes;
    WriteCoord(o, p.position);
    WriteOptCoord(o, p.activation);
    ghost var b2 := o.bytes;
    WriteCoords(o, p.joints);
    WriteEffectSet(o, p.effects);
    ghost var b4 := o.bytes;
    WriteU32(o, p.score);
    var x2 := EncCoord(p.position) + EncOption(p.activation, EncCoord);
    var x3 := x2 + EncVector(p.joints, EncCoord);
    Assoc(b0, EncCoord(p.position), EncOption(p.activation, EncCoord));
    Assoc(b0, x2, EncVector(p.joints, EncCoord));
    Assoc(b0, x3, EncEffectSet(p.effects));
    Assoc(b0, x3 + EncEffectSet(p.effects), EncU32(p.score));
  }

  /** Serializer<Player>::Read: into a Player{}, whose m_update is zero. */
  method ReadPlayer(src: ByteSource) returns (p: Player)
    requires src.Valid()
    modifies src
    ensures Reads(src, DecPlayer(old(src.Rest())), p)
  {
    var pos := ReadCoord(src);
    var act := ReadOptCoord(src);
    var joints := ReadCoords(src);
    var e := ReadEffectSet(src);
    var score := ReadU32(src);
    p := Player(pos, act, joints, e, score, 0, 0);
  }

  /** Serializer<Grid>::Write. */
  method WriteGrid(o: ByteSink, g: Grid)
    modifies o
    ensures o.bytes == old(o.bytes) + EncBoard(g.Value())
  {
    ghost var b0 := o.bytes;
    WriteU32(o, g.width);
    WriteU32(o, g.height);
    WriteBlocks(o, g.blocks);
    Assoc(b0, EncU32(g.width), EncU32(g.height));
    Assoc(b0, EncU32(g.width) + EncU32(g.height), EncVector(g.blocks, EncU32));
  }

  /** Serializer<Grid>::Read, as the Board it fills in. */
  method ReadBoard(src: ByteSource) returns (b: Board)
    requires src.Valid()
    modifies src
    ensures Reads(src, DecBoard(old(src.Rest())), b)
  {
    var w := ReadU32(src);
    var h := ReadU32(src);
    var blocks := ReadBlocks(src);
    b := Board(w, h, blocks);
  }

  // ---------------------------------------------------------------------------
  // The game

  /** ostream::write of n chars. */
  method WriteChars(o: ByteSink, cs: Bytes)
    modifies o
    ensures o.bytes == old(o.bytes) + cs
  {
    for i := 0 to |cs|
      invariant o.bytes == old(o.bytes) + cs[..i]
    {
      o.Put(cs[i]);
      assert cs[..i + 1] == cs[..i] + [cs[i]];
    }
    assert cs[..|cs|] == cs;
  }

  /** istream::read of n chars: the next n bytes, or the fail bit when there are fewer. */
  method ReadChars(src: ByteSource, n: nat) returns (cs: Bytes)
    requires src.Valid()
    modifies src
    ensures Reads(src, DecSeq(n, old(src.Rest()), DecU8), cs)
  {
    ghost var s := src.Rest();
    cs := [];
    for k := 0 to n
      invariant Reads(src, DecSeq(k, s, DecU8), cs)
    {
      var b := src.Get();
      DecSeqSnoc(k, s, DecU8);
      cs := cs + [b];
    }
  }

  /** The fields of g up to the hint. */
  method WriteGameHead(o: ByteSink, g: LinkGame.Game)
    modifies o
    ensures o.bytes == old(o.bytes) + EncGameHead(g.Value())
  {
    ghost var b0 := o.bytes;
    WriteU32(o, g.time);
    WriteGrid(o, g.grid);
    WritePlayers(o, g.players);
    WriteOptPair(o, g.nextSolution);
    var v := g.Value();
    var x2 := EncU32(v.time) + EncBoard(v.board);
    Assoc(b0, EncU32(v.time), EncBoard(v.board));
    Assoc(b0, x2, EncVector(v.players, EncPlayer));
    Assoc(b0, x2 + EncVector(v.players, EncPlayer), EncOption(v.nextSolution, EncPair));
  }

  /** The fields of g from the game over flag on. */
  method WriteGameTail(o: ByteSink, g: LinkGame.Game)
    modifies o
    ensures o.bytes == old(o.bytes) + EncGameTail(g.Value())
  {
    ghost var b0 := o.bytes;
    WriteBool(o, g.over);
    WriteBool(o, g.showHint);
    WriteBool(o, g.paused);
    WriteTypes(o, g.available);
    WriteEffectSet(o, g.effects);
    WriteEffectBlock(o, g.effectBlock);
    var x1 := EncBool(g.over) + EncBool(g.showHint);
    var x2 := x1 + EncBool(g.paused);
    var x3 := x2 + EncVector(g.available, EncType);
    Assoc(b0, EncBool(g.over), EncBool(g.showHint));
    Assoc(b0, x1, EncBool(g.paused));
    Assoc(b0, x2, EncVector(g.available, EncType));
    Assoc(b0, x3, EncEffectSet(g.effects));
    Assoc(b0, x3 + EncEffectSet(g.effects), EncEffectBlock(g.effectBlock));
  }

  /** Serializer<Game>::Write: kVersionStr with its NUL, then the fields; m_update is not written. */
  method WriteGame(o: ByteSink, g: LinkGame.Game)
    modifies o
    ensures o.bytes == old(o.bytes) + EncGame(g.Value())
  {
    ghost var b0 := o.bytes;
    WriteChars(o, HEADER);
    WriteGameHead(o, g);
    WriteGameTail(o, g);
    Assoc(b0, HEADER, EncGameHead(g.Value()));
    Assoc(b0 + HEADER, EncGameHead(g.Value()), EncGameTail(g.Value()));
    Assoc(b0, HEADER, EncGameBody(g.Value()));
  }

  /** The fields of a Game up to the hint. */
  method ReadGameHead(src: ByteSource) returns (h: (U32, Board, seq<Player>, Option<(Coord, Coord)>))
    requires src.Valid()
    modifies src
    ensures Reads(src, DecGameHead(old(src.Rest())), h)
  {
    var time := ReadU32(src);
    var b := ReadBoard(src);
    var ps := ReadPlayers(src);
    var sol := ReadOptPair(src);
    h := (time, b, ps, sol);
  }

  /** The fields of a Game from the game over flag on. */
  method ReadGameTail(src: ByteSource) returns (t: (bool, bool, bool, seq<EffectType>, EffectSet, EffectBlock))
    requires src.Valid()
    modifies src
    ensures Reads(src, DecGameTail(old(src.Rest())), t)
  {
    var over := ReadBool(src);
    var hint := ReadBool(src);
    var paused := ReadBool(src);
    var avail := ReadTypes(src);
    var e := ReadEffectSet(src);
    var eb := ReadEffectBlock(src);
    t := (over, hint, paused, avail, e, eb);
  }

  /**
   * Serializer<Game>::Read: a default Game, left as it is when the nine
   * header bytes are not kVersionStr (strcmp stops at the NUL that ends
   * kVersionStr, so it finds them equal exactly when all nine match), and
   * otherwise given the fields read.
   */
  method ReadGame(src: ByteSource) returns (g: LinkGame.Game)
    requires src.Valid()
    modifies src
    ensures fresh(g) && fresh(g.grid)
    ensures Reads(src, DecGame(old(src.Rest())), g.Value())
  {
    g := new LinkGame.Game();
    ghost var s := src.Rest();
    var version := ReadChars(src, |HEADER|);
    BytesRead(|HEADER|, s);
    if version != HEADER {
      return;
    }
    var h := ReadGameHead(src);
    var t := ReadGameTail(src);
    var v := GameState(h.0, h.1, h.2, h.3, t.0, t.1, t.2, t.3, t.4, t.5, false, false);
    assert Reads(src, DecGame(s), v);
    Store(g, v);
  }

  /** The assignments through which Serializer<Game>::Read fills in its Game. */
  method Store(g: LinkGame.Game, v: GameState)
    modifies g, g.grid
    ensures g.Value() == v
  {
    g.time, g.players, g.nextSolution := v.time, v.players, v.nextSolution;
    g.grid.width, g.grid.height, g.grid.blocks := v.board.width, v.board.height, v.board.blocks;
    g.over, g.showHint, g.paused := v.over, v.showHint, v.paused;
    g.available, g.effects, g.effectBlock := v.available, v.effects, v.effectBlock;
    g.nextSecond, g.togglePause := v.nextSecond, v.togglePause;
  }
}
