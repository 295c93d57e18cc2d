/** What Patch v2 saves (`render` in `src/patch_view.rs`): each run is written in
    its shorter form, every recognizable header is found, and no way of cutting
    the rows into runs gives a shorter stream. */
module PatchSizes {
  import opened Text
  import opened PatchView
  import JsonString

  function Size(records: seq<string>): nat {
    |Unrows(records)|
  }

  lemma SizeAppend(a: seq<string>, b: seq<string>)
    ensures Size(a + b) == Size(a) + Size(b)
  {
    UnrowsAppend(a, b);
  }

  // ----- the length of numbers

  lemma {:induction false} NextDigits(n: nat)
    ensures |Decimal(n)| <= |Decimal(n + 1)| <= |Decimal(n)| + 1
  {
    if n >= 10 && (n + 1) / 10 != n / 10 {
      NextDigits(n / 10);
      assert (n + 1) / 10 == n / 10 + 1;
    }
  }

  lemma {:induction false} MoreDigits(n: nat, k: nat)
    ensures |Decimal(n)| <= |Decimal(n + k)| <= |Decimal(n)| + k
  {
    if k > 0 {
      MoreDigits(n, k - 1);
      NextDigits(n + k - 1);
    }
  }

  lemma {:induction false} FewDigits(n: nat)
    ensures |Decimal(n)| <= 1 + n / 10
  {
    if n >= 10 {
      FewDigits(n / 10);
    }
  }

  // ----- one run

  function RowSize(row: string): nat {
    |Literal(row)| + 1
  }

  /** The row and its repetition. */
  function FoldedSize(row: string, n: nat): nat
    requires n > 1
  {
    RowSize(row) + |"Repeat "| + |Decimal(n - 1)| + 1
  }

  lemma {:induction false} CopiesSize(record: string, n: nat)
    ensures Size(Copies(record, n)) == n * (|record| + 1)
  {
    if n > 0 {
      CopiesSize(record, n - 1);
      CopiesSnoc(record, n - 1);
    }
  }

  lemma PairSize(row: string, repetition: string)
    ensures Size([Literal(row), repetition]) == RowSize(row) + |repetition| + 1
  {
    UnrowsOne(repetition);
    UnrowsHead(Literal(row), [repetition]);
    assert [Literal(row)] + [repetition] == [Literal(row), repetition];
  }

  /** A run has the smaller of its two sizes, and is written out unless the
      repetition is really shorter. */
  lemma RunIsShorter(row: string, n: nat)
    requires n >= 1
    ensures Size(RunRecords(row, n)) <= n * RowSize(row)
    ensures n > 1 ==> Size(RunRecords(row, n)) <= FoldedSize(row, n)
    ensures Size(RunRecords(row, n)) == n * RowSize(row) || (n > 1 && Size(RunRecords(row, n)) == FoldedSize(row, n))
    ensures RunRecords(row, n) != Copies(Literal(row), n) ==> Size(RunRecords(row, n)) < n * RowSize(row)
  {
    CopiesSize(Literal(row), n);
    PairSize(row, "Repeat " + Decimal(n - 1));
    SplitOff(n, RowSize(row));
  }

  lemma SplitOff(n: nat, size: nat)
    requires n >= 1
    ensures n * size == size + size * (n - 1)
  {
  }

  // ----- many runs

  /** A way to write some equal rows. */
  datatype Piece = Piece(row: string, count: nat, folded: bool) {
    predicate Valid() {
      count >= 1 && (folded ==> count > 1)
    }

    function Cost(): nat
      requires Valid()
    {
      if folded then FoldedSize(row, count) else count * RowSize(row)
    }
  }

  function RowsOf(plan: seq<Piece>): seq<string> {
    if plan == [] then [] else Copies(plan[0].row, plan[0].count) + RowsOf(plan[1..])
  }

  predicate AllPieces(plan: seq<Piece>) {
    forall i :: 0 <= i < |plan| ==> plan[i].Valid()
  }

  function CostOf(plan: seq<Piece>): nat
    requires AllPieces(plan)
  {
    if plan == [] then 0 else plan[0].Cost() + CostOf(plan[1..])
  }

  /** Two pieces of one row cost at least what one of the runs of both costs. */
  lemma Joined(row: string, a: Piece, b: Piece)
    requires a.Valid() && b.Valid() && a.row == row && b.row == row
    ensures Size(RunRecords(row, a.count + b.count)) <= a.Cost() + b.Cost()
  {
    var n, size := a.count + b.count, RowSize(row);
    RunIsShorter(row, n);
    Distributes(a.count, b.count, size);
    if a.folded {
      MoreDigits(a.count - 1, b.count);
      AtLeast(b.count, size);
      if b.folded {
        SumDigits(a.count - 1, b.count - 1);
      }
    } else if b.folded {
      MoreDigits(b.count - 1, a.count);
      AtLeast(a.count, size);
    }
  }

  lemma Distributes(a: nat, b: nat, size: nat)
    ensures (a + b) * size == a * size + b * size
  {
  }

  lemma AtLeast(n: nat, size: nat)
    requires size >= 1
    ensures n * size >= n
  {
  }

  /** A sum has at most the digits of both terms and one more. */
  lemma {:induction false} SumDigits(a: nat, b: nat)
    ensures |Decimal(a + b + 1)| <= |Decimal(a)| + |Decimal(b)| + 1
  {
    if a >= 10 {
      SumDigits(a / 10, b / 10);
      var q := a / 10 + b / 10 + 1;
      if (a + b + 1) / 10 < q {
        assert (a + b + 1) / 10 == q - 1;
        NextDigits(q - 1);
      } else {
        assert (a + b + 1) / 10 == q;
      }
      TenthDigits(b);
    } else {
      MoreDigitsByTen(b, a + 1);
    }
  }

  lemma TenthDigits(n: nat)
    ensures |Decimal(n / 10)| <= |Decimal(n)|
  {
  }

  lemma MoreDigitsByTen(n: nat, k: nat)
    requires k <= 10
    ensures |Decimal(n + k)| <= |Decimal(n)| + 1
  {
    if n + k >= 10 {
      if n < 10 {
        assert (n + k) / 10 < 10;
      } else if (n + k) / 10 != n / 10 {
        assert (n + k) / 10 == n / 10 + 1;
        NextDigits(n / 10);
      }
    }
  }

  predicate NoHeaders(rows: seq<string>) {
    forall i :: 0 <= i <= |rows| ==> Header(rows[i..]).None?
  }

  /** The cheaper piece for a run of equal rows. */
  function Cheaper(row: string, n: nat): (piece: Piece)
    requires n >= 1
    ensures piece.Valid() && piece.row == row && piece.count == n
  {
    Piece(row, n, n > 1 && Size(RunRecords(row, n)) == FoldedSize(row, n))
  }

  lemma CheaperCost(row: string, n: nat)
    requires n >= 1
    ensures Cheaper(row, n).Cost() == Size(RunRecords(row, n))
  {
    RunIsShorter(row, n);
  }

  lemma RunCost(p: Piece)
    requires p.Valid()
    ensures Size(RunRecords(p.row, p.count)) <= p.Cost()
  {
    RunIsShorter(p.row, p.count);
  }

  lemma {:induction false} CopiesAre(row: string, n: nat)
    ensures forall k :: 0 <= k < n ==> Copies(row, n)[k] == row
  {
    if n > 0 {
      CopiesAre(row, n - 1);
    }
  }

  lemma {:induction false} CopiesAdd(row: string, a: nat, b: nat)
    ensures Copies(row, a) + Copies(row, b) == Copies(row, a + b)
  {
    CopiesAre(row, a);
    CopiesAre(row, b);
    CopiesAre(row, a + b);
  }

  /** Whatever way a text without headers is cut into runs, written out or folded,
      the stream of the encoder is not longer. */
  lemma {:induction false} ShortestRuns(rows: seq<string>, plan: seq<Piece>)
    requires NoHeaders(rows) && AllPieces(plan) && RowsOf(plan) == rows
    ensures Size(Records(rows)) <= CostOf(plan)
    decreases |plan|
  {
    if plan != [] {
      var p, rest := plan[0], plan[1..];
      if rest != [] && rest[0].row == p.row {
        JoinFirst(plan);
        var joined := [Cheaper(p.row, p.count + rest[0].count)] + rest[1..];
        ShortestRuns(rows, joined);
      } else {
        FirstRun(rows, p, rest);
        ShortestRuns(RowsOf(rest), rest);
        RunCost(p);
        SizeAppend(RunRecords(p.row, p.count), Records(RowsOf(rest)));
      }
    }
  }

  lemma JoinFirst(plan: seq<Piece>)
    requires AllPieces(plan) && |plan| > 1 && plan[0].row == plan[1].row
    ensures var joined := [Cheaper(plan[0].row, plan[0].count + plan[1].count)] + plan[1..][1..];
            AllPieces(joined) && RowsOf(joined) == RowsOf(plan) && CostOf(joined) <= CostOf(plan)
  {
    var row, a, b, rest := plan[0].row, plan[0], plan[1], plan[1..][1..];
    var first := Cheaper(row, a.count + b.count);
    var joined := [first] + rest;
    assert joined[1..] == rest && plan[1..][0] == b;
    Joined(row, a, b);
    CheaperCost(row, a.count + b.count);
    CopiesAdd(row, a.count, b.count);
    ConcatAssoc(Copies(row, a.count), Copies(row, b.count), RowsOf(rest));
  }

  lemma FirstRun(rows: seq<string>, p: Piece, rest: seq<Piece>)
    requires NoHeaders(rows) && p.Valid() && AllPieces(rest) && rows == Copies(p.row, p.count) + RowsOf(rest)
    requires rest == [] || rest[0].row != p.row
    ensures Records(rows) == RunRecords(p.row, p.count) + Records(RowsOf(rest)) && NoHeaders(RowsOf(rest))
  {
    CopiesAre(p.row, p.count);
    if rest != [] {
      CopiesAre(rest[0].row, rest[0].count);
    }
    assert rows[0..] == rows && rows[0] == p.row;
    assert rows[p.count..] == RowsOf(rest);
    assert p.count < |rows| ==> rows[p.count] == rest[0].row;
    assert RunLength(rows) == p.count;
    forall i | 0 <= i <= |RowsOf(rest)|
      ensures Header(RowsOf(rest)[i..]).None?
    {
      assert rows[p.count + i..] == RowsOf(rest)[i..];
    }
  }

  // ----- headers

  /** Every four rows of a header are found, for any name and version without CR;
      a name that ends with a tab is read without it. */
  lemma HeaderIsFound(rows: seq<string>, header: FileHeader)
    ensures Header(rows) == Some(header)
            <==> |rows| >= 4 && rows[..4] == header.Rows() && '\r' !in header.name && '\r' !in header.version
                 && (EndsWith(header.name, "\t") ==> header.tabbed)
  {
    if |rows| >= 4 {
      assert rows[..4] == [rows[0], rows[1], rows[2], rows[3]];
      if rows[..4] == header.Rows() {
        FieldOf(rows, header);
      }
      if Header(rows) == Some(header) {
        FoundRows(rows, header);
      }
    }
  }

  lemma FieldOf(rows: seq<string>, header: FileHeader)
    requires |rows| >= 4 && rows[..4] == header.Rows()
    ensures "--- a/" <= rows[2] && rows[2][6..] == header.name + header.Separator()
    ensures "index " <= rows[1] && rows[1][6..] == header.version
    ensures rows[0] == "diff --git a/" + header.name + " b/" + header.name
    ensures rows[3] == "+++ b/" + header.name + header.Separator()
    ensures var field := header.name + header.Separator();
            (header.tabbed ==> EndsWith(field, "\t") && field[..|field| - 1] == header.name)
            && (!header.tabbed ==> field == header.name)
  {
    assert rows[2] == rows[..4][2] && rows[1] == rows[..4][1] && rows[0] == rows[..4][0] && rows[3] == rows[..4][3];
    assert rows[2] == "--- a/" + (header.name + header.Separator());
  }

  lemma FoundRows(rows: seq<string>, header: FileHeader)
    requires Header(rows) == Some(header)
    ensures |rows| >= 4 && rows[..4] == header.Rows() && '\r' !in header.name && '\r' !in header.version
    ensures EndsWith(header.name, "\t") ==> header.tabbed
  {
    var field := rows[2][6..];
    FieldParts(field);
    assert rows[2] == "--- a/" + field && rows[1] == "index " + header.version;
    ConcatAssoc("--- a/", header.name, header.Separator());
    assert rows[..4] == [rows[0], rows[1], rows[2], rows[3]];
  }

  predicate IsCompact(header: FileHeader) {
    '\t' !in header.name && EndsWith(header.version, " 100644")
  }

  lemma HeaderRowsSize(header: FileHeader)
    ensures |Unrows(header.Rows())| == 38 + 4 * |header.name| + |header.version| + 2 * |header.Separator()|
  {
    var rows := header.Rows();
    UnrowsFour(rows[0], rows[1], rows[2], rows[3]);
    assert rows == [rows[0], rows[1], rows[2], rows[3]];
  }

  lemma UnrowsFour(a: string, b: string, c: string, d: string)
    ensures |Unrows([a, b, c, d])| == |a| + |b| + |c| + |d| + 4
  {
    UnrowsOne(d);
    UnrowsHead(c, [d]);
    UnrowsHead(b, [c, d]);
    UnrowsHead(a, [b, c, d]);
    assert [a] + [b, c, d] == [a, b, c, d] && [b] + [c, d] == [b, c, d] && [c] + [d] == [c, d];
  }

  lemma RecordSize(header: FileHeader)
    ensures |header.Record()| == if IsCompact(header) then |header.name| + |header.version| - 4 + |header.Separator()|
                                 else 6 + |JsonString.Encode(header.name)| + |header.version| + |header.Separator()|
  {
    if IsCompact(header) {
      assert |header.Record()| == |if header.tabbed then "FT " else "F "| + |header.name| + 1 + |header.version| - 7;
    }
  }

  /** A header record is not longer than its rows, except that JSON may take more
      than four times as much for a name of control characters. */
  lemma HeaderPays(header: FileHeader)
    ensures |header.Record()| + 1 <= |Unrows(header.Rows())|
            <==> IsCompact(header) || |JsonString.Escape(header.name)| <= 29 + 4 * |header.name| + |header.Separator()|
  {
    HeaderRowsSize(header);
    RecordSize(header);
  }

  /** JSON writes this character in one or two. */
  predicate ShortInJson(c: char) {
    |JsonString.EscapeChar(c)| <= 2
  }

  predicate ShortNames(rows: seq<string>) {
    forall i :: 0 <= i <= |rows| ==> FirstIsShort(rows[i..])
  }

  predicate FirstIsShort(rows: seq<string>) {
    match Header(rows)
    case None => true
    case Some(header) => ShortName(header.name)
  }

  predicate ShortName(name: string) {
    forall k :: 0 <= k < |name| ==> ShortInJson(name[k])
  }

  lemma {:induction false} ShortEscape(name: string)
    requires ShortName(name)
    ensures |JsonString.Escape(name)| <= 2 * |name|
  {
    if name != "" {
      ShortEscape(name[1..]);
    }
  }

  function Literals(rows: seq<string>): seq<string> {
    if rows == [] then [] else [Literal(rows[0])] + Literals(rows[1..])
  }

  lemma {:induction false} LiteralsAppend(a: seq<string>, b: seq<string>)
    ensures Literals(a + b) == Literals(a) + Literals(b)
  {
    if a == [] {
      assert a + b == b;
    } else {
      LiteralsAppend(a[1..], b);
      assert (a + b)[1..] == a[1..] + b;
    }
  }

  lemma {:induction false} LiteralRun(rows: seq<string>)
    requires rows != [] && forall k :: 0 <= k < |rows| ==> rows[k] == rows[0]
    ensures Literals(rows) == Copies(Literal(rows[0]), |rows|)
  {
    if |rows| > 1 {
      LiteralRun(rows[1..]);
    }
  }

  /** No row of a header looks like a record. */
  lemma HeaderIsLiteral(header: FileHeader)
    ensures Literals(header.Rows()) == header.Rows()
  {
    var rows := header.Rows();
    assert rows[0][0] == 'd' && rows[1][0] == 'i' && rows[2][0] == '-' && rows[3][0] == '+';
    LiteralsFour(rows[0], rows[1], rows[2], rows[3]);
    assert rows == [rows[0], rows[1], rows[2], rows[3]];
  }

  lemma LiteralsFour(a: string, b: string, c: string, d: string)
    ensures Literals([a, b, c, d]) == [Literal(a), Literal(b), Literal(c), Literal(d)]
  {
    assert [a, b, c, d][1..] == [b, c, d] && [b, c, d][1..] == [c, d] && [c, d][1..] == [d] && [d][1..] == [];
    assert Literals([d]) == [Literal(d)];
    assert Literals([c, d]) == [Literal(c), Literal(d)];
  }

  /** One group is not longer than its rows written out. */
  lemma GroupIsShort(rows: seq<string>)
    requires rows != [] && AllNoLf(rows) && FirstIsShort(rows)
    ensures Size(Group(rows).0) <= Size(Literals(rows[..Group(rows).1]))
  {
    if Header(rows).Some? {
      var header := Header(rows).value;
      HeaderIsExact(rows);
      HeaderIsLiteral(header);
      ShortEscape(header.name);
      HeaderPays(header);
      UnrowsOne(header.Record());
    } else {
      var n := RunLength(rows);
      RunIsShorter(rows[0], n);
      LiteralRun(rows[..n]);
      CopiesSize(Literal(rows[0]), n);
    }
  }

  lemma ShortNamesLater(rows: seq<string>, used: nat)
    requires ShortNames(rows) && used <= |rows|
    ensures ShortNames(rows[used..])
  {
    forall i | 0 <= i <= |rows[used..]|
      ensures FirstIsShort(rows[used..][i..])
    {
      assert rows[used + i..] == rows[used..][i..];
    }
  }

  lemma LiteralsSize(rows: seq<string>, a: seq<string>, b: seq<string>)
    requires rows == a + b
    ensures Size(Literals(rows)) == Size(Literals(a)) + Size(Literals(b))
  {
    LiteralsAppend(a, b);
    SizeAppend(Literals(a), Literals(b));
  }

  /** A stream is never longer than the rows written out, unless a name in a header
      has control characters. */
  lemma {:induction false} RecordsAreShort(rows: seq<string>)
    requires AllNoLf(rows) && ShortNames(rows)
    ensures Size(Records(rows)) <= Size(Literals(rows))
    decreases |rows|
  {
    if rows != [] {
      RecordsSplit(rows);
      var (group, used) := Group(rows);
      assert FirstIsShort(rows[0..]) && rows[0..] == rows;
      GroupIsShort(rows);
      ShortNamesLater(rows, used);
      RecordsAreShort(rows[used..]);
      ShortStep(rows, rows[..used], rows[used..], group, Records(rows[used..]));
    }
  }

  lemma RecordsSplit(rows: seq<string>)
    requires rows != []
    ensures var (group, used) := Group(rows);
            Records(rows) == group + Records(rows[used..]) && rows == rows[..used] + rows[used..]
  {
  }

  lemma ShortStep(rows: seq<string>, first: seq<string>, rest: seq<string>, group: seq<string>, more: seq<string>)
    requires rows == first + rest && Size(group) <= Size(Literals(first)) && Size(more) <= Size(Literals(rest))
    ensures Size(group + more) <= Size(Literals(rows))
  {
    LiteralsSize(rows, first, rest);
    SizeAppend(group, more);
  }

  lemma {:induction false} ControlEscape(n: nat)
    ensures |JsonString.Escape(Repeated("\U{1}", n))| == 6 * n && |Repeated("\U{1}", n)| == n
    ensures forall k :: 0 <= k < n ==> Repeated("\U{1}", n)[k] == '\U{1}'
  {
    if n > 0 {
      ControlEscape(n - 1);
      assert Repeated("\U{1}", n)[1..] == Repeated("\U{1}", n - 1);
    }
  }

  /** Such names are real: the stream of one header is longer than its rows. */
  lemma ControlNamesGrow(n: nat, version: string)
    requires n >= 15 && NoLf(version) && '\r' !in version && !EndsWith(version, " 100644")
    ensures var header := FileHeader(Repeated("\U{1}", n), false, version);
            Records(header.Rows()) == [header.Record()] && Size(Records(header.Rows())) > Size(Literals(header.Rows()))
  {
    ControlEscape(n);
    HeaderGrows(FileHeader(Repeated("\U{1}", n), false, version));
  }

  lemma HeaderGrows(header: FileHeader)
    requires !header.tabbed && '\t' !in header.name && '\r' !in header.name && '\r' !in header.version
    requires !IsCompact(header) && |JsonString.Escape(header.name)| > 29 + 4 * |header.name|
    ensures Records(header.Rows()) == [header.Record()] && Size(Records(header.Rows())) > Size(Literals(header.Rows()))
  {
    OneHeader(header);
    HeaderIsLiteral(header);
    HeaderPays(header);
    UnrowsOne(header.Record());
  }

  lemma OneHeader(header: FileHeader)
    requires '\r' !in header.name && '\r' !in header.version && '\t' !in header.name
    ensures Records(header.Rows()) == [header.Record()]
  {
    Whole(header.Rows());
    NoTab(header.name);
    HeaderIsFound(header.Rows(), header);
    FirstHeader(header.Rows(), header);
  }

  lemma NoTab(name: string)
    requires '\t' !in name
    ensures !EndsWith(name, "\t")
  {
    assert name != "" ==> name[|name| - 1] in name;
  }

  lemma Whole<T>(rows: seq<T>)
    requires |rows| == 4
    ensures rows[..4] == rows && rows[4..] == []
  {
  }

  lemma FirstHeader(rows: seq<string>, header: FileHeader)
    requires rows != [] && Header(rows) == Some(header) && rows[4..] == []
    ensures Records(rows) == [header.Record()]
  {
    assert Records(rows) == [header.Record()] + Records([]);
  }

  // ----- the encoder keeps a long run folded

  /** Forty equal rows and more are one row and one repetition. */
  method RenderLongRun(row: string, n: nat, tokensSaved: (string, string) -> int) returns (view: string)
    requires NoLf(row) && n >= 40
    requires !("Patch v2\n" <= Repeated(row + "\n", n)) && !("Patch v1\n" <= Repeated(row + "\n", n))
    ensures var raw := Repeated(row + "\n", n);
            var folded := MAGIC + Unrows([Literal(row), "Repeat " + Decimal(n - 1), "End 1"]);
            view == (if tokensSaved(raw, folded) > 0 then folded else raw) && |folded| < |raw|
  {
    LongRun(row, n);
    view := Render(Repeated(row + "\n", n), tokensSaved);
  }

  lemma {:induction false} UnrowsCopies(row: string, n: nat)
    ensures Unrows(Copies(row, n)) == Repeated(row + "\n", n)
  {
    if n > 0 {
      UnrowsCopies(row, n - 1);
      UnrowsHead(row, Copies(row, n - 1));
    }
  }

  lemma LongRun(row: string, n: nat)
    requires NoLf(row) && n >= 40
    ensures var raw := Repeated(row + "\n", n);
            Stream(raw) == MAGIC + Unrows([Literal(row), "Repeat " + Decimal(n - 1), "End 1"])
            && |Stream(raw)| < |raw|
  {
    CopiesAre(row, n);
    UnrowsCopies(row, n);
    RowsOfUnrows(Copies(row, n));
    RepeatedLength(row + "\n", n);
    OneRun(row, n);
    LongRunFolds(row, n);
    LongRunEnds(row, n);
    LongRunSize(row, n);
    assert [Literal(row), "Repeat " + Decimal(n - 1)] + ["End 1"]
           == [Literal(row), "Repeat " + Decimal(n - 1), "End 1"];
  }

  lemma OneRun(row: string, n: nat)
    requires n >= 4
    ensures Records(Copies(row, n)) == RunRecords(row, n)
  {
    var rows := Copies(row, n);
    CopiesAre(row, n);
    NoHeaderInRun(rows);
    assert RunLength(rows) == n && rows[n..] == [];
    assert Records(rows) == RunRecords(rows[0], n) + Records([]);
  }

  lemma NoHeaderInRun(rows: seq<string>)
    requires |rows| >= 4 && rows[0] == rows[2]
    ensures Header(rows).None?
  {
    HeaderStarts(rows);
  }

  lemma HeaderStarts(rows: seq<string>)
    ensures Header(rows).Some? ==> |rows| >= 4 && rows[0] != "" && rows[2] != "" && rows[0][0] == 'd' && rows[2][0] == '-'
  {
  }

  lemma LongRunEnds(row: string, n: nat)
    requires n > 0
    ensures EndsWithLf(Repeated(row + "\n", n))
  {
    UnrowsCopies(row, n);
    UnrowsIsJoin(Copies(row, n));
  }

  lemma LongRunFolds(row: string, n: nat)
    requires n >= 40
    ensures RunRecords(row, n) == [Literal(row), "Repeat " + Decimal(n - 1)]
  {
    RunIsShorter(row, n);
    FoldingPays(row, n);
    CopiesSize(Literal(row), n);
  }

  lemma FoldingPays(row: string, n: nat)
    requires n >= 40
    ensures FoldedSize(row, n) < n * RowSize(row)
  {
    FewDigits(n - 1);
    SplitOff(n, RowSize(row));
    AtLeast(n - 1, RowSize(row));
  }

  lemma LongRunSize(row: string, n: nat)
    requires n >= 40
    ensures |MAGIC + Unrows([Literal(row), "Repeat " + Decimal(n - 1), "End 1"])| < n * (|row| + 1)
  {
    FewDigits(n - 1);
    ThreeRows(Literal(row), "Repeat " + Decimal(n - 1), "End 1");
    LongRunPays(|row| + 1, n, |Decimal(n - 1)|);
  }

  lemma ThreeRows(a: string, b: string, c: string)
    ensures |Unrows([a, b, c])| == |a| + |b| + |c| + 3
  {
    UnrowsSnoc([a, b], c);
    UnrowsSnoc([a], b);
    UnrowsOne(a);
    assert [a, b] + [c] == [a, b, c] && [a] + [b] == [a, b];
  }

  lemma LongRunPays(size: nat, n: nat, digits: nat)
    requires n >= 40 && size >= 1 && digits <= 1 + (n - 1) / 10
    ensures 9 + (size + 1) + (8 + digits) + 6 < n * size
  {
    SplitOff(n, size);
    AtLeast(n - 1, size);
  }

  // ----- escapes

  /** A row is escaped exactly where the decoder would not read it as itself. */
  lemma EscapedIfNeeded(row: string)
    requires NoLf(row)
    ensures Literal(row) != row <==> Chunk(row, State("", ""), true) != Ok(row + "\n")
  {
    if Marked(row) {
      assert Literal(row) == "\\" + row && |Literal(row)| == |row| + 1;
      assert row[0] in {'\\', 'F', 'R', 'E'};
      MarkedIsRead(row);
    } else {
      assert Literal(row) == row;
    }
  }

  lemma MarkedIsRead(row: string)
    requires NoLf(row) && Marked(row)
    ensures Chunk(row, State("", ""), true) != Ok(row + "\n")
  {
    if "\\" <= row {
      assert |row[1..] + "\n"| < |row + "\n"|;
    } else if row[0] == 'F' {
      HeaderRoute(row, State("", ""));
      ReadsFour(row);
    }
  }

  /** A header record stands for rows that start otherwise. */
  lemma ReadsFour(row: string)
    requires row != "" && row[0] == 'F'
    ensures "F " <= row || "FT " <= row ==> CompactHeader(row) != Ok(row + "\n")
    ensures "File " <= row || "FileT " <= row ==> FullHeader(row) != Ok(row + "\n")
  {
    if ("F " <= row || "FT " <= row) && CompactHeader(row).Ok? {
      var tabbed := "FT " <= row;
      var (name, objects) := SplitOnce(if tabbed then row[3..] else row[2..], '\t').value;
      StartsWithDiff(FileHeader(name, tabbed, objects + " 100644"));
    }
    if ("File " <= row || "FileT " <= row) && FullHeader(row).Ok? {
      var tabbed := "FileT " <= row;
      var (name, rest) := JsonString.ParseFirst(if tabbed then row[6..] else row[5..]).value;
      StartsWithDiff(FileHeader(name, tabbed, rest[1..]));
    }
  }

  lemma StartsWithDiff(header: FileHeader)
    ensures Unrows(header.Rows()) != "" && Unrows(header.Rows())[0] == 'd'
  {
    assert header.Rows()[0][0] == 'd';
    assert Unrows(header.Rows()) == header.Rows()[0] + "\n" + Unrows(header.Rows()[1..]);
  }
}
