/**
 * The program store (QBasic/basic/Program.hpp): statements keyed by line
 * number, kept in ascending line order as a std::map does.
 *
 * The read-only queries are functions on the map of lines; the class Program
 * holds the map and the operations that change it or walk it in order.
 */
module BasicProgram {
  import opened StdTypes
  import opened BasicConfig
  import opened BasicError
  import opened BasicExpression
  import opened BasicStatement
  import opened BasicLines

  type Lines = map<LineID, Stmt>

  // ---------------------------------------------------------------------------
  // Listings

  /** One line of Program::Format. */
  function ListingLine(e: (LineID, Stmt)): string {
    DecimalNat(e.0) + " " + FormatStmt(e.1) + "\n"
  }

  /** The listing of the given entries in order. */
  function Listing(entries: seq<(LineID, Stmt)>): string {
    if entries == [] then "" else Listing(entries[..|entries| - 1]) + ListingLine(entries[|entries| - 1])
  }

  /** One entry of Program::FormatAST: the line number, then the statement's tree. */
  function TreeEntry(e: (LineID, Stmt), stats: Option<Stats>): string {
    DecimalNat(e.0) + " " + FormatStmtAST(e.1, e.0, stats)
  }

  /** The trees of the given entries in order. */
  function Trees(entries: seq<(LineID, Stmt)>, stats: Option<Stats>): string {
    if entries == [] then "" else Trees(entries[..|entries| - 1], stats) + TreeEntry(entries[|entries| - 1], stats)
  }

  /** Listing one more entry appends that entry's line. */
  lemma ListingStep(entries: seq<(LineID, Stmt)>, i: nat)
    requires i < |entries|
    ensures Listing(entries[..i + 1]) == Listing(entries[..i]) + ListingLine(entries[i])
  {
    assert entries[..i + 1][..i] == entries[..i];
  }

  /** Printing one more entry's tree appends that tree. */
  lemma TreesStep(entries: seq<(LineID, Stmt)>, i: nat, stats: Option<Stats>)
    requires i < |entries|
    ensures Trees(entries[..i + 1], stats) == Trees(entries[..i], stats) + TreeEntry(entries[i], stats)
  {
    assert entries[..i + 1][..i] == entries[..i];
  }

  /** A listing is the first entry's line followed by the listing of the rest. */
  lemma {:induction false} ListingSplit(entries: seq<(LineID, Stmt)>)
    requires entries != []
    ensures Listing(entries) == ListingLine(entries[0]) + Listing(entries[1..])
    decreases |entries|
  {
    if |entries| > 1 {
      var init := entries[..|entries| - 1];
      ListingSplit(init);
      assert init[1..] == entries[1..][..|entries[1..]| - 1];
    }
  }

  /** A program's listing starts with its first line. */
  lemma ListingFirst(lines: Lines)
    requires lines != map[]
    ensures var l := FirstLine(lines).value;
      Listing(Entries(lines)) == ListingLine((l, lines[l])) + Listing(Entries(lines)[1..])
  {
    FirstIsFirstEntry(lines);
    ListingSplit(Entries(lines));
  }

  /** The loop of Program::Format over the entries in order. */
  method ListEntries(entries: seq<(LineID, Stmt)>) returns (text: string)
    ensures text == Listing(entries)
  {
    text := "";
    for i := 0 to |entries|
      invariant text == Listing(entries[..i])
    {
      ListingStep(entries, i);
      text := text + ListingLine(entries[i]);
    }
    assert entries[..|entries|] == entries;
  }

  /** The loop of Program::FormatAST over the entries in order. */
  method TreeEntries(entries: seq<(LineID, Stmt)>, stats: Option<Stats>) returns (text: string)
    ensures text == Trees(entries, stats)
  {
    text := "";
    for i := 0 to |entries|
      invariant text == Trees(entries[..i], stats)
    {
      TreesStep(entries, i, stats);
      text := text + TreeEntry(entries[i], stats);
    }
    assert entries[..|entries|] == entries;
  }

  // ---------------------------------------------------------------------------
  // The mutable store

  class Program {
    var statements: Lines

    /** Program::Create: an empty program. */
    constructor ()
      ensures statements == map[]
    {
      statements := map[];
    }

    /** InsertStatement: add or replace a line; a missing statement leaves the program as it is. */
    method InsertStatement(l: LineID, s: Option<Stmt>)
      modifies this
      ensures statements == if s.Some? then old(statements)[l := s.value] else old(statements)
    {
      if s.Some? {
        statements := statements[l := s.value];
      }
    }

    /** EraseStatement: remove one line, if present. */
    method EraseStatement(l: LineID)
      modifies this
      ensures statements == old(statements) - {l}
    {
      statements := statements - {l};
    }

    /** Clear: remove every line. */
    method Clear()
      modifies this
      ensures statements == map[]
    {
      statements := map[];
    }

    /** Program::Format: each line's listing, in ascending line order. */
    method Format() returns (text: string)
      ensures text == Listing(Entries(statements))
    {
      text := ListEntries(Entries(statements));
    }

    /** Program::FormatAST: each line's tree, in ascending line order. */
    method FormatAST(stats: Option<Stats>) returns (text: string)
      ensures text == Trees(Entries(statements), stats)
    {
      text := TreeEntries(Entries(statements), stats);
    }
  }

  // ---------------------------------------------------------------------------
  // Properties of the store

  /** After an insert the line holds the new statement; every other line keeps what it had. */
  lemma InsertLookup(lines: Lines, l: LineID, s: Stmt, k: LineID)
    ensures StatementAt(lines[l := s], l) == Ok(s)
    ensures k != l && k in lines ==> StatementAt(lines[l := s], k) == StatementAt(lines, k)
    ensures k != l && k !in lines ==> StatementAt(lines[l := s], k) == Err(UndefinedLine(k))
  {
  }

  /** After an erase the line is gone; every other line keeps what it had. */
  lemma EraseLookup(lines: Lines, l: LineID, k: LineID)
    ensures StatementAt(lines - {l}, l).Err?
    ensures k != l && k in lines ==> StatementAt(lines - {l}, k) == StatementAt(lines, k)
  {
  }
}
