/**
 * The ordered map of lines behind the program store (QBasic/basic/Program.hpp):
 * a std::map from line number to statement, walked in ascending key order.
 * Everything here is generic in what a line holds.
 */
module BasicLines {
  import opened StdTypes
  import opened BasicConfig
  import opened BasicError

  // ---------------------------------------------------------------------------
  // Ordered keys

  /** Some element of a non-empty finite set of integers is at most every other. */
  lemma {:induction false} MinExists(s: set<int>)
    requires s != {}
    ensures exists x :: x in s && forall y :: y in s ==> x <= y
    decreases |s|
  {
    if forall z :: z !in s {
      assert false;
    }
    var x: int :| x in s;
    var rest := s - {x};
    if forall z :: z !in rest {
      forall y | y in s
        ensures y == x
      {
        assert y != x ==> y in rest;
      }
    } else {
      MinExists(rest);
      var m: int :| m in rest && forall y :: y in rest ==> m <= y;
      var w: int := if x < m then x else m;
      assert forall y :: y in s ==> y == x || y in rest;
      assert w in s && forall y :: y in s ==> w <= y;
    }
  }

  /** The smallest line number of a non-empty set. */
  function MinLine(s: set<LineID>): (x: LineID)
    requires s != {}
    ensures x in s && forall y :: y in s ==> x <= y
  {
    MinExists(s);
    var x: LineID :| x in s && forall y :: y in s ==> x <= y;
    x
  }

  predicate Increasing(keys: seq<LineID>) {
    forall i, j :: 0 <= i < j < |keys| ==> keys[i] < keys[j]
  }

  /** The line numbers of a set in ascending order: the order in which a std::map is walked. */
  function {:induction false} Ascending(s: set<LineID>): (keys: seq<LineID>)
    ensures Increasing(keys)
    ensures |keys| == |s|
    ensures forall k :: k in s <==> k in keys
    decreases |s|
  {
    if s == {} then []
    else
      var m := MinLine(s);
      var rest := Ascending(s - {m});
      assert forall k :: k in rest ==> m < k;
      [m] + rest
  }

  // ---------------------------------------------------------------------------
  // The queries

  /** GetFirstLine: the smallest line, or the end of the program when there is none. */
  function FirstLine<V>(lines: map<LineID, V>): (r: RuntimeResult<LineID>)
    ensures lines == map[] <==> r == Err(MsgEndOfProgram)
    ensures r.Ok? ==> r.value in lines && forall k :: k in lines ==> r.value <= k
  {
    if lines == map[] then Err(MsgEndOfProgram) else Ok(MinLine(lines.Keys))
  }

  /** GetNextLine: the smallest line strictly after l (std::map::upper_bound), or the end of the program. */
  function NextLine<V>(lines: map<LineID, V>, l: LineID): (r: RuntimeResult<LineID>)
    ensures r.Err? <==> forall k :: k in lines ==> k <= l
    ensures r.Err? ==> r.error == MsgEndOfProgram
    ensures r.Ok? ==> r.value in lines && l < r.value
    ensures r.Ok? ==> forall k :: k in lines && l < k ==> r.value <= k
  {
    if lines == map[] then Err(MsgEndOfProgram)
    else if forall k :: k in lines ==> k <= l then Err(MsgEndOfProgram)
    else
      var above := set k | k in lines && l < k;
      assert forall k :: k in lines && l < k ==> k in above;
      Ok(MinLine(above))
  }

  /** CheckLine: the end of the program when empty, an undefined line when absent. */
  function CheckLine<V>(lines: map<LineID, V>, l: LineID): (r: RuntimeResult<()>)
    ensures r.Ok? <==> l in lines
    ensures r.Err? ==> r.error == if lines == map[] then MsgEndOfProgram else UndefinedLine(l)
  {
    if lines == map[] then Err(MsgEndOfProgram)
    else if l !in lines then Err(UndefinedLine(l))
    else Ok(())
  }

  /** GetStatement: as CheckLine, with the statement on success. */
  function StatementAt<V>(lines: map<LineID, V>, l: LineID): (r: RuntimeResult<V>)
    ensures r.Ok? <==> l in lines
    ensures r.Ok? ==> r.value == lines[l]
    ensures r.Err? ==> Err(r.error) == CheckLine(lines, l)
  {
    if lines == map[] then Err(MsgEndOfProgram)
    else if l !in lines then Err(UndefinedLine(l))
    else Ok(lines[l])
  }

  // ---------------------------------------------------------------------------
  // Walking the map in order

  /** Each key paired with what the map holds at it. */
  function Pairs<V>(keys: seq<LineID>, lines: map<LineID, V>): (r: seq<(LineID, V)>)
    requires forall k :: k in keys ==> k in lines
    ensures |r| == |keys|
    ensures forall i :: 0 <= i < |r| ==> r[i].0 == keys[i] && r[i].1 == lines[keys[i]]
  {
    if keys == [] then [] else [(keys[0], lines[keys[0]])] + Pairs(keys[1..], lines)
  }

  /** The lines of a program with what they hold, in ascending line order. */
  function Entries<V>(lines: map<LineID, V>): (entries: seq<(LineID, V)>)
    ensures |entries| == |lines|
    ensures forall i :: 0 <= i < |entries| ==> entries[i].0 in lines && entries[i].1 == lines[entries[i].0]
    ensures forall i, j :: 0 <= i < j < |entries| ==> entries[i].0 < entries[j].0
  {
    var keys := Ascending(lines.Keys);
    Pairs(keys, lines)
  }

  /** Every line of the program has its entry. */
  lemma EntryOf<V>(lines: map<LineID, V>, k: LineID) returns (i: nat)
    requires k in lines
    ensures i < |Entries(lines)| && Entries(lines)[i].0 == k
  {
    var keys := Ascending(lines.Keys);
    assert k in keys;
    i :| 0 <= i < |keys| && keys[i] == k;
  }

  /** The first line of a non-empty program is its first entry's line. */
  lemma FirstIsFirstEntry<V>(lines: map<LineID, V>)
    requires lines != map[]
    ensures FirstLine(lines) == Ok(Entries(lines)[0].0)
  {
    var entries := Entries(lines);
    var l := FirstLine(lines).value;
    var i := EntryOf(lines, l);
    assert l <= entries[0].0;
    assert i == 0;
  }

  /** The next line after an entry's line is the following entry's line. */
  lemma NextIsSuccessor<V>(lines: map<LineID, V>, i: nat)
    requires i + 1 < |Entries(lines)|
    ensures NextLine(lines, Entries(lines)[i].0) == Ok(Entries(lines)[i + 1].0)
  {
    var entries := Entries(lines);
    var l, next := entries[i].0, entries[i + 1].0;
    var v := NextBound(lines, l, next);
    var j := EntryOf(lines, v);
    IndexOrder(lines, i, j);
    IndexOrder(lines, j, i + 1);
  }

  /** A line above l bounds the next line after l. */
  lemma NextBound<V>(lines: map<LineID, V>, l: LineID, above: LineID) returns (v: LineID)
    requires above in lines && l < above
    ensures NextLine(lines, l) == Ok(v) && v in lines && l < v <= above
  {
    v := NextLine(lines, l).value;
  }

  /** In entries of increasing lines, a smaller line comes earlier. */
  lemma IndexOrder<V>(lines: map<LineID, V>, a: nat, b: nat)
    requires a < |Entries(lines)| && b < |Entries(lines)|
    ensures Entries(lines)[a].0 < Entries(lines)[b].0 ==> a < b
    ensures Entries(lines)[a].0 <= Entries(lines)[b].0 ==> a <= b
  {
    var entries := Entries(lines);
    if b < a {
      assert entries[b].0 < entries[a].0;
    }
  }

  /** The last entry's line has no next line. */
  lemma NextAfterLast<V>(lines: map<LineID, V>)
    requires lines != map[]
    ensures NextLine(lines, Entries(lines)[|lines| - 1].0) == Err(MsgEndOfProgram)
  {
    var entries := Entries(lines);
    var last := entries[|entries| - 1].0;
    forall k | k in lines
      ensures k <= last
    {
      var j := EntryOf(lines, k);
      assert j <= |entries| - 1;
    }
  }
}
