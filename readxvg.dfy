/**
 * The readers of the string-method swarm code (cpc/lib/swarms/readxvg.py):
 * Ramachandran `.xvg` files (phi, psi and a residue label per data row)
 * and the `[ dihedral_restraints ]` section of `.itp` topology files.
 * A file is given as its sequence of lines; any exception the source
 * raises on a line (an index past the end of the line or of its fields,
 * a number that does not parse) is `Malformed` with that line's index.
 */
module ReadXvg {
  import opened Wrappers
  import opened Text

  datatype ReadError = Malformed(line: nat)

  /** One data row of an `.xvg` file. */
  datatype Row = Row(phi: real, psi: real, residue: int)

  /** The `[phi, psi]` pair the readers store per row. */
  datatype Angles = Angles(phi: real, psi: real)

  // ---------------------------------------------------------------- .xvg rows

  /** Rows starting with '@' or '#' are xvg comments. */
  predicate IsComment(line: String)
    requires |line| > 0
  {
    line[0] == '@' || line[0] == '#'
  }

  /** `int(label.split('-')[1])`: the residue number in a label such as "ARG-8". */
  function ResidueNumber(tag: String): (r: Option<int>)
    ensures r.Some? ==> '-' in tag
  {
    var pieces := Split(tag, '-');
    if |pieces| < 2 then None
    else
      assert Find(tag, '-').Some?;
      ParseInt(pieces[1])
  }

  /** A label written as name, '-', residue number reads back as that number. */
  lemma ResidueNumberOfLabel(name: String, n: nat)
    requires '-' !in name
    ensures ResidueNumber(name + "-" + NatToString(n)) == Some(n)
  {
    var digits := NatToString(n);
    assert forall k :: 0 <= k < |digits| ==> digits[k] != '-';
    SplitAfterPart(name, '-', digits);
    assert name + "-" + digits == name + ['-'] + digits;
    assert Split(digits, '-') == [digits];
    ParseIntToString(n);
  }

  /** The phi and psi columns and the residue of a data row; None where the source raises. */
  function ParseRow(line: String): (r: Option<Row>)
    ensures r.Some? ==> |SplitWS(line)| >= 3
    ensures r.Some? ==> ParseFloat(SplitWS(line)[0]) == Some(r.value.phi)
    ensures r.Some? ==> ParseFloat(SplitWS(line)[1]) == Some(r.value.psi)
    ensures r.Some? ==> ResidueNumber(SplitWS(line)[2]) == Some(r.value.residue)
  {
    var parts := SplitWS(line);
    if |parts| < 3 then None
    else match (ParseFloat(parts[0]), ParseFloat(parts[1]), ResidueNumber(parts[2]))
      case (Some(phi), Some(psi), Some(res)) => Some(Row(phi, psi, res))
      case _ => None
  }

  /** A line both readers get through: a comment, or a row that parses. */
  predicate XvgLineOk(line: String) {
    |line| > 0 && (IsComment(line) || ParseRow(line).Some?)
  }

  /** The rows of an `.xvg` file in file order, or the first line the readers raise on. */
  function XvgRows(lines: seq<String>): (r: Result<seq<Row>, ReadError>)
    ensures r.Ok? <==> forall i :: 0 <= i < |lines| ==> XvgLineOk(lines[i])
    ensures r.Err? ==> r.error.line < |lines| && !XvgLineOk(lines[r.error.line])
    ensures r.Err? ==> forall i :: 0 <= i < r.error.line ==> XvgLineOk(lines[i])
    ensures r.Ok? ==> |r.value| <= |lines|
    decreases |lines|
  {
    if |lines| == 0 then Ok([])
    else
      var n := |lines| - 1;
      var init := lines[..n];
      assert forall i :: 0 <= i < n ==> init[i] == lines[i];
      match XvgRows(init)
      case Err(e) => Err(e)
      case Ok(rows) =>
        var line := lines[n];
        if !XvgLineOk(line) then Err(Malformed(n))
        else if IsComment(line) then Ok(rows)
        else Ok(rows + [ParseRow(line).value])
  }

  /** The next prefix of the rows: one line more. */
  lemma XvgRowsNext(lines: seq<String>, i: nat, rows: seq<Row>)
    requires i < |lines| && XvgRows(lines[..i]) == Ok(rows) && XvgLineOk(lines[i])
    ensures IsComment(lines[i]) ==> XvgRows(lines[..i + 1]) == Ok(rows)
    ensures !IsComment(lines[i]) ==> XvgRows(lines[..i + 1]) == Ok(rows + [ParseRow(lines[i]).value])
  {
    assert lines[..i + 1][..i] == lines[..i];
  }

  /** A line the readers raise on after good lines: the whole file fails there. */
  lemma XvgRowsFail(lines: seq<String>, i: nat)
    requires i < |lines| && XvgRows(lines[..i]).Ok? && !XvgLineOk(lines[i])
    ensures XvgRows(lines) == Err(Malformed(i))
  {
    forall j | 0 <= j < i ensures XvgLineOk(lines[j]) {
      assert lines[..i][j] == lines[j];
    }
  }

  // ---------------------------------------------------------------- readxvg_flat

  predicate Selects(rsel: seq<int>, row: Row) {
    row.residue in rsel
  }

  /** The rows whose residue is selected, in file order. */
  function Selected(rows: seq<Row>, rsel: seq<int>): (r: seq<Row>)
    ensures |r| <= |rows|
    ensures forall k :: 0 <= k < |r| ==> Selects(rsel, r[k])
  {
    if |rows| == 0 then []
    else
      var init := Selected(rows[..|rows| - 1], rsel);
      if Selects(rsel, rows[|rows| - 1]) then init + [rows[|rows| - 1]] else init
  }

  /** readxvg_flat's list: phi and psi of each selected row, appended row by row. */
  function Flat(rows: seq<Row>, rsel: seq<int>): seq<real> {
    if |rows| == 0 then []
    else
      var row := rows[|rows| - 1];
      Flat(rows[..|rows| - 1], rsel) + (if Selects(rsel, row) then [row.phi, row.psi] else [])
  }

  /** The flat list holds two entries per selected row: its phi, then its psi. */
  lemma {:induction false} FlatPairs(rows: seq<Row>, rsel: seq<int>)
    ensures |Flat(rows, rsel)| == 2 * |Selected(rows, rsel)|
    ensures forall k :: 0 <= k < |Selected(rows, rsel)| ==>
      Flat(rows, rsel)[2 * k] == Selected(rows, rsel)[k].phi &&
      Flat(rows, rsel)[2 * k + 1] == Selected(rows, rsel)[k].psi
    decreases |rows|
  {
    if |rows| > 0 {
      var init := rows[..|rows| - 1];
      FlatPairs(init, rsel);
    }
  }

  /** readxvg_flat: the flat phi/psi list of the selected rows, or the first bad line. */
  method ReadXvgFlat(lines: seq<String>, rsel: seq<int>) returns (r: Result<seq<real>, ReadError>)
    ensures XvgRows(lines).Err? ==> r == Err(XvgRows(lines).error)
    ensures XvgRows(lines).Ok? ==> r == Ok(Flat(XvgRows(lines).value, rsel))
  {
    var d: seq<real> := [];
    ghost var rows: seq<Row> := [];
    for i := 0 to |lines|
      invariant XvgRows(lines[..i]) == Ok(rows)
      invariant d == Flat(rows, rsel)
    {
      var line := lines[i];
      if |line| == 0 {
        XvgRowsFail(lines, i);
        return Err(Malformed(i));
      }
      if !IsComment(line) {
        var row := ParseRow(line);
        if row.None? {
          XvgRowsFail(lines, i);
          return Err(Malformed(i));
        }
        XvgRowsNext(lines, i, rows);
        FlatNext(rows, row.value, rsel);
        if row.value.residue in rsel {
          d := d + [row.value.phi, row.value.psi];
        }
        rows := rows + [row.value];
      } else {
        XvgRowsNext(lines, i, rows);
      }
    }
    assert lines[..|lines|] == lines;
    return Ok(d);
  }

  lemma FlatNext(rows: seq<Row>, row: Row, rsel: seq<int>)
    ensures Flat(rows + [row], rsel) == Flat(rows, rsel) + (if row.residue in rsel then [row.phi, row.psi] else [])
  {
    assert (rows + [row])[..|rows|] == rows;
  }

  // ---------------------------------------------------------------- readxvg

  /** The phi/psi pairs of the rows of one residue, in file order. */
  function PairsOf(rows: seq<Row>, residue: int): (r: seq<Angles>)
    ensures |r| <= |rows|
  {
    if |rows| == 0 then []
    else
      var row := rows[|rows| - 1];
      PairsOf(rows[..|rows| - 1], residue) + (if row.residue == residue then [Angles(row.phi, row.psi)] else [])
  }

  /** readxvg's dictionary: each selected row's pair appended under its residue. */
  function Grouped(rows: seq<Row>, rsel: seq<int>): map<int, seq<Angles>> {
    if |rows| == 0 then map[]
    else
      var g := Grouped(rows[..|rows| - 1], rsel);
      var row := rows[|rows| - 1];
      if row.residue in rsel then
        g[row.residue := (if row.residue in g then g[row.residue] else []) + [Angles(row.phi, row.psi)]]
      else g
  }

  /**
   * The dictionary has a key for exactly the selected residues that occur,
   * and under each the pairs of that residue's rows in file order.
   */
  lemma {:induction false} GroupedByResidue(rows: seq<Row>, rsel: seq<int>, residue: int)
    ensures residue in Grouped(rows, rsel) <==> residue in rsel && PairsOf(rows, residue) != []
    ensures residue in Grouped(rows, rsel) ==> Grouped(rows, rsel)[residue] == PairsOf(rows, residue)
    decreases |rows|
  {
    if |rows| > 0 {
      GroupedByResidue(rows[..|rows| - 1], rsel, residue);
    }
  }

  lemma GroupedNext(rows: seq<Row>, row: Row, rsel: seq<int>)
    ensures row.residue !in rsel ==> Grouped(rows + [row], rsel) == Grouped(rows, rsel)
    ensures row.residue in rsel && row.residue in Grouped(rows, rsel) ==>
      Grouped(rows + [row], rsel) == Grouped(rows, rsel)[row.residue := Grouped(rows, rsel)[row.residue] + [Angles(row.phi, row.psi)]]
    ensures row.residue in rsel && row.residue !in Grouped(rows, rsel) ==>
      Grouped(rows + [row], rsel) == Grouped(rows, rsel)[row.residue := [Angles(row.phi, row.psi)]]
  {
    assert (rows + [row])[..|rows|] == rows;
    assert [] + [Angles(row.phi, row.psi)] == [Angles(row.phi, row.psi)];
  }

  /** readxvg: the selected rows' pairs grouped by residue, or the first bad line. */
  method ReadXvgGrouped(lines: seq<String>, rsel: seq<int>) returns (r: Result<map<int, seq<Angles>>, ReadError>)
    ensures XvgRows(lines).Err? ==> r == Err(XvgRows(lines).error)
    ensures XvgRows(lines).Ok? ==> r == Ok(Grouped(XvgRows(lines).value, rsel))
  {
    var d: map<int, seq<Angles>> := map[];
    ghost var rows: seq<Row> := [];
    for i := 0 to |lines|
      invariant XvgRows(lines[..i]) == Ok(rows)
      invariant d == Grouped(rows, rsel)
    {
      var line := lines[i];
      if |line| == 0 {
        XvgRowsFail(lines, i);
        return Err(Malformed(i));
      }
      if !IsComment(line) {
        var row := ParseRow(line);
        if row.None? {
          XvgRowsFail(lines, i);
          return Err(Malformed(i));
        }
        XvgRowsNext(lines, i, rows);
        GroupedNext(rows, row.value, rsel);
        var phipsi := Angles(row.value.phi, row.value.psi);
        var residue := row.value.residue;
        if residue in rsel {
          if residue in d {
            d := d[residue := d[residue] + [phipsi]];
          } else {
            d := d[residue := [phipsi]];
          }
        }
        rows := rows + [row.value];
      } else {
        XvgRowsNext(lines, i, rows);
      }
    }
    assert lines[..|lines|] == lines;
    return Ok(d);
  }

  // ---------------------------------------------------------------- what the dihedral readers see in a line

  /** `float(line.split()[5])`: the dihedral value column of a restraint line. */
  function DihedralValue(line: String): (r: Option<real>)
    ensures r.Some? ==> |SplitWS(line)| >= 6 && ParseFloat(SplitWS(line)[5]) == r
  {
    var parts := SplitWS(line);
    if |parts| < 6 then None else ParseFloat(parts[5])
  }

  /**
   * read_dihres_flat's header test `line[0] == '[' and line[2] == 'd' and
   * line[3] == 'i' and line[4] == 'h'`, evaluated left to right: None where
   * it indexes past the end of the line.
   */
  function DihHeaderTest(line: String): (r: Option<bool>)
    ensures r.None? <==> |line| == 0 || (line[0] == '[' && (|line| < 3 || (line[2] == 'd' && (|line| < 4 || (line[3] == 'i' && |line| < 5)))))
    ensures r == Some(true) <==> |line| >= 5 && line[0] == '[' && line[2..5] == "dih"
  {
    if |line| == 0 then None
    else if line[0] != '[' then Some(false)
    else if |line| < 3 then None
    else if line[2] != 'd' then Some(false)
    else if |line| < 4 then None
    else if line[3] != 'i' then Some(false)
    else if |line| < 5 then None
    else Some(line[4] == 'h')
  }

  /**
   * What the dihedral readers look at in one line: whether it is empty
   * (indexing it raises), whether it starts with ';', read_dihres_flat's
   * `[ dih` test, whether it starts with the section header `hdr`, and its
   * value column.
   */
  datatype LineView = LineView(empty: bool, comment: bool, dihTest: Option<bool>, header: bool, value: Option<real>)

  function View(line: String, hdr: String): LineView {
    LineView(|line| == 0, |line| > 0 && line[0] == ';', DihHeaderTest(line), StartsWith(line, hdr), DihedralValue(line))
  }

  /** The views of a file's lines, in file order. */
  function Views(lines: seq<String>, hdr: String): (r: seq<LineView>)
    ensures |r| == |lines|
    ensures forall i {:trigger r[i]} :: 0 <= i < |lines| ==> r[i] == View(lines[i], hdr)
  {
    seq(|lines|, i => if 0 <= i < |lines| then View(lines[i], hdr) else View([], hdr))
  }

  lemma ViewsAppend(a: seq<String>, b: seq<String>, hdr: String)
    ensures Views(a + b, hdr) == Views(a, hdr) + Views(b, hdr)
  {
    var l, r := Views(a + b, hdr), Views(a, hdr) + Views(b, hdr);
    forall i | 0 <= i < |l| ensures l[i] == r[i] {
      if i < |a| {
        assert (a + b)[i] == a[i];
      } else {
        assert (a + b)[i] == b[i - |a|];
      }
    }
  }

  /** A section value line: not empty, no ';' comment, and its value column reads as `value`. */
  predicate BodyView(v: LineView, value: real) {
    !v.empty && !v.comment && v.value == Some(value)
  }

  /** The same, said of the line's text. */
  predicate BodyLine(line: String, value: real) {
    |line| > 0 && line[0] != ';' && DihedralValue(line) == Some(value)
  }

  // ---------------------------------------------------------------- read_dihres_flat

  /** The state read_dihres_flat carries from line to line. */
  datatype FlatScan = FlatScan(dihsect: bool, values: seq<real>)

  /** One line of read_dihres_flat as written: the header test comes first. */
  function FlatStepAsWritten(st: FlatScan, v: LineView): Option<FlatScan> {
    match v.dihTest
    case None => None
    case Some(h) =>
      var dihsect := st.dihsect || h;
      if dihsect && !v.comment then
        match v.value
        case None => None
        case Some(x) => Some(FlatScan(dihsect, st.values + [x]))
      else Some(FlatScan(dihsect, st.values))
  }

  /** read_dihres_flat as written, over the first lines of a file. */
  function DihresFlatAsWritten(vs: seq<LineView>): (r: Result<FlatScan, ReadError>)
    ensures r.Err? ==> r.error.line < |vs|
    decreases |vs|
  {
    if |vs| == 0 then Ok(FlatScan(false, []))
    else
      var n := |vs| - 1;
      match DihresFlatAsWritten(vs[..n])
      case Err(e) => Err(e)
      case Ok(st) =>
        match FlatStepAsWritten(st, vs[n])
        case None => Err(Malformed(n))
        case Some(st') => Ok(st')
  }

  /** A failure on the first lines of a file is the failure of the whole file. */
  lemma {:induction false} DihresFlatAsWrittenStops(vs: seq<LineView>, i: nat)
    requires i <= |vs| && DihresFlatAsWritten(vs[..i]).Err?
    ensures DihresFlatAsWritten(vs) == DihresFlatAsWritten(vs[..i])
    decreases |vs| - i
  {
    if i < |vs| {
      assert vs[..i + 1][..i] == vs[..i];
      DihresFlatAsWrittenStops(vs, i + 1);
    } else {
      assert vs[..i] == vs;
    }
  }

  /** As written, a line that passes the `[ dih` test but has no value column stops the reader. */
  lemma AsWrittenFailsAt(vs: seq<LineView>, i: nat)
    requires i < |vs| && vs[i].dihTest == Some(true) && !vs[i].comment && vs[i].value.None?
    ensures DihresFlatAsWritten(vs).Err?
  {
    assert vs[..i + 1][..i] == vs[..i];
    assert DihresFlatAsWritten(vs[..i + 1]).Err?;
    DihresFlatAsWrittenStops(vs, i + 1);
  }

  /** A section header line as GROMACS writes it: `[ name ]`. */
  function Bracketed(name: String): (r: String)
    ensures |r| == |name| + 4 && r[0] == '[' && r[2..|name| + 2] == name
  {
    "[ " + name + " ]"
  }

  /** The name of the section the dihedral readers look for. */
  const DihresSection: String := "dihedral_restraints"

  /** The leading token of a line ends at the first whitespace character. */
  lemma {:induction false} TokenLenBefore(tok: String, c: char, rest: String)
    requires NoSpace(tok) && IsSpace(c)
    ensures TokenLen(tok + [c] + rest) == |tok|
    decreases |tok|
  {
    var s := tok + [c] + rest;
    if |tok| == 0 {
      assert s[0] == c;
    } else {
      assert !IsSpace(tok[0]) && s[0] == tok[0];
      assert NoSpace(tok[1..]) by {
        forall i | 0 <= i < |tok[1..]| ensures !IsSpace(tok[1..][i]) {
          assert tok[1..][i] == tok[i + 1];
        }
      }
      TokenLenBefore(tok[1..], c, rest);
      assert s[1..] == tok[1..] + [c] + rest;
    }
  }

  /** Leading whitespace does not change the fields. */
  lemma SplitWSSpace(c: char, rest: String)
    requires IsSpace(c)
    ensures SplitWS([c] + rest) == SplitWS(rest)
  {
    assert ([c] + rest)[1..] == rest;
    assert StripLeft([c] + rest) == StripLeft(rest);
  }

  /** `(tok + " " + rest).split()` is tok, then the fields of rest. */
  lemma SplitWSToken(tok: String, c: char, rest: String)
    requires |tok| > 0 && NoSpace(tok) && IsSpace(c)
    ensures SplitWS(tok + [c] + rest) == [tok] + SplitWS(rest)
  {
    var s := tok + [c] + rest;
    assert s[0] == tok[0];
    assert StripLeft(s) == s;
    TokenLenBefore(tok, c, rest);
    assert s[..|tok|] == tok;
    assert s[|tok|..] == [c] + rest;
    SplitWSSpace(c, rest);
  }

  /** A string without whitespace is one field. */
  lemma SplitWSOne(tok: String)
    requires |tok| > 0 && NoSpace(tok)
    ensures SplitWS(tok) == [tok]
  {
    assert StripLeft(tok) == tok;
    TokenLenAll(tok);
    assert tok[..|tok|] == tok;
    assert SplitWS(tok[|tok|..]) == [];
  }

  /** Three whitespace-free strings joined by single spaces are three fields. */
  lemma ThreeFields(a: String, b: String, c: String)
    requires |a| > 0 && NoSpace(a) && |b| > 0 && NoSpace(b) && |c| > 0 && NoSpace(c)
    ensures SplitWS(a + [' '] + (b + [' '] + c)) == [a, b, c]
  {
    SplitWSToken(b, ' ', c);
    SplitWSToken(a, ' ', b + [' '] + c);
    SplitWSOne(c);
  }

  /** A header line has three fields: the brackets and the name between them. */
  lemma BracketedFields(name: String)
    requires |name| > 0 && NoSpace(name)
    ensures SplitWS(Bracketed(name)) == ["[", name, "]"]
  {
    var h := Bracketed(name);
    assert h == "[" + [' '] + (name + [' '] + "]");
    assert NoSpace("[") && NoSpace("]");
    ThreeFields("[", name, "]");
  }

  /** read_dihres_flat's header test accepts `[ dih... ]`. */
  lemma BracketedTest(name: String)
    requires |name| >= 3 && name[..3] == "dih"
    ensures DihHeaderTest(Bracketed(name)) == Some(true)
  {
    var h := Bracketed(name);
    assert h[2..5] == name[..3];
  }

  /** A header line has no sixth field, so no dihedral value. */
  lemma HeaderHasNoValue(name: String)
    requires |name| > 0 && NoSpace(name)
    ensures DihedralValue(Bracketed(name)).None?
  {
    BracketedFields(name);
  }

  /**
   * As written, a file with a section header `[ dih... ]` (such as
   * `[ dihedral_restraints ]`) never reads: the header itself is taken
   * for a value line, and it has three fields where the value is the sixth.
   * (The as-written reader does not look at `hdr`.)
   */
  lemma DihresFlatAsWrittenFailsOnHeader(lines: seq<String>, i: nat, name: String, hdr: String)
    requires i < |lines| && lines[i] == Bracketed(name)
    requires NoSpace(name) && |name| >= 3 && name[..3] == "dih"
    ensures DihresFlatAsWritten(Views(lines, hdr)).Err?
  {
    HeaderHasNoValue(name);
    BracketedTest(name);
    AsWrittenFailsAt(Views(lines, hdr), i);
  }

  /**
   * The header line that opens the section. The readers below take it as
   * `hdr` and test whether a line starts with it.
   */
  const DihresHeader: String := Bracketed(DihresSection)

  /** One line of the corrected reader: the value branch, then the header test, as read_dihres has them. */
  function FlatStep(st: FlatScan, v: LineView): Option<FlatScan> {
    if st.dihsect && v.empty then None
    else if st.dihsect && !v.comment then
      match v.value
      case None => None
      case Some(x) => Some(FlatScan(true, st.values + [x]))
    else Some(FlatScan(st.dihsect || v.header, st.values))
  }

  /** read_dihres_flat with the header test after the value branch. */
  function DihresFlat(vs: seq<LineView>): (r: Result<FlatScan, ReadError>)
    ensures r.Err? ==> r.error.line < |vs|
    ensures r.Ok? && !r.value.dihsect ==> r.value.values == []
    decreases |vs|
  {
    if |vs| == 0 then Ok(FlatScan(false, []))
    else
      var n := |vs| - 1;
      match DihresFlat(vs[..n])
      case Err(e) => Err(e)
      case Ok(st) =>
        match FlatStep(st, vs[n])
        case None => Err(Malformed(n))
        case Some(st') => Ok(st')
  }

  lemma {:induction false} DihresFlatStops(vs: seq<LineView>, i: nat)
    requires i <= |vs| && DihresFlat(vs[..i]).Err?
    ensures DihresFlat(vs) == DihresFlat(vs[..i])
    decreases |vs| - i
  {
    if i < |vs| {
      assert vs[..i + 1][..i] == vs[..i];
      DihresFlatStops(vs, i + 1);
    } else {
      assert vs[..i] == vs;
    }
  }

  lemma DihresFlatNext(vs: seq<LineView>, i: nat, st: FlatScan)
    requires i < |vs| && DihresFlat(vs[..i]) == Ok(st)
    ensures FlatStep(st, vs[i]).None? ==> DihresFlat(vs[..i + 1]) == Err(Malformed(i))
    ensures FlatStep(st, vs[i]).Some? ==> DihresFlat(vs[..i + 1]) == Ok(FlatStep(st, vs[i]).value)
  {
    assert vs[..i + 1][..i] == vs[..i];
  }

  /** The lines before the section: nothing is read and nothing raises. */
  lemma {:induction false} DihresFlatBeforeSection(vs: seq<LineView>)
    requires forall i :: 0 <= i < |vs| ==> !vs[i].header
    ensures DihresFlat(vs) == Ok(FlatScan(false, []))
    decreases |vs|
  {
    if |vs| > 0 {
      DihresFlatBeforeSection(vs[..|vs| - 1]);
    }
  }

  lemma AppendEmpty<T>(a: seq<T>, b: seq<T>)
    requires |b| == 0
    ensures a + b == a
  {
  }

  lemma AppendLast<T>(a: seq<T>, b: seq<T>)
    requires |b| > 0
    ensures a + b == a + b[..|b| - 1] + [b[|b| - 1]]
  {
    assert b == b[..|b| - 1] + [b[|b| - 1]];
  }

  /** The header line opens the section and reads nothing. */
  lemma DihresFlatHeaderLine(head: seq<LineView>, v: LineView)
    requires DihresFlat(head) == Ok(FlatScan(false, []))
    requires v.header
    ensures DihresFlat(head + [v]) == Ok(FlatScan(true, []))
  {
    assert (head + [v])[..|head|] == head;
  }

  /** Inside the section a value line adds its value. */
  lemma DihresFlatValueLine(head: seq<LineView>, v: LineView, value: real, start: seq<real>)
    requires DihresFlat(head) == Ok(FlatScan(true, start))
    requires BodyView(v, value)
    ensures DihresFlat(head + [v]) == Ok(FlatScan(true, start + [value]))
  {
    assert (head + [v])[..|head|] == head;
  }

  /** Inside the section every line adds its value, in file order. */
  lemma {:induction false} DihresFlatBody(head: seq<LineView>, body: seq<LineView>, values: seq<real>, start: seq<real>)
    requires DihresFlat(head) == Ok(FlatScan(true, start))
    requires |body| == |values| && forall j :: 0 <= j < |body| ==> BodyView(body[j], values[j])
    ensures DihresFlat(head + body) == Ok(FlatScan(true, start + values))
    decreases |body|
  {
    if |body| == 0 {
      AppendEmpty(head, body);
      AppendEmpty(start, values);
    } else {
      var n := |body| - 1;
      var body', values' := body[..n], values[..n];
      forall j | 0 <= j < n ensures BodyView(body'[j], values'[j]) {
        assert body'[j] == body[j] && values'[j] == values[j];
      }
      DihresFlatBody(head, body', values', start);
      DihresFlatValueLine(head + body', body[n], values[n], start + values');
      AppendLast(head, body);
      AppendLast(start, values);
    }
  }

  /**
   * The corrected reader on a file made of lines before the section, the
   * header and the section's value lines returns exactly those values.
   */
  lemma DihresFlatReadsSection(pre: seq<String>, header: String, body: seq<String>, values: seq<real>, hdr: String)
    requires forall i :: 0 <= i < |pre| ==> !StartsWith(pre[i], hdr)
    requires StartsWith(header, hdr)
    requires |body| == |values| && forall j :: 0 <= j < |body| ==> BodyLine(body[j], values[j])
    ensures DihresFlat(Views(pre + [header] + body, hdr)) == Ok(FlatScan(true, values))
  {
    var pv, hv, bv := Views(pre, hdr), Views([header], hdr), Views(body, hdr);
    ViewsAppend(pre, [header], hdr);
    ViewsAppend(pre + [header], body, hdr);
    assert hv == [hv[0]];
    DihresFlatBeforeSection(pv);
    DihresFlatHeaderLine(pv, hv[0]);
    DihresFlatBody(pv + hv, bv, values, []);
    assert [] + values == values;
  }

  /**
   * The smallest file that shows the difference: the bare header line fails
   * as written and reads as an empty section once corrected.
   */
  lemma HeaderOnlyFile(name: String)
    requires |name| >= 3 && NoSpace(name) && name[..3] == "dih"
    ensures DihresFlatAsWritten(Views([Bracketed(name)], Bracketed(name))) == Err(Malformed(0))
    ensures DihresFlat(Views([Bracketed(name)], Bracketed(name))) == Ok(FlatScan(true, []))
  {
    var header: String := Bracketed(name);
    HeaderHasNoValue(name);
    BracketedTest(name);
    assert header[..|header|] == header;
    var vs := Views([header], header);
    var start := FlatScan(false, []);
    assert vs[..0] == [];
    assert FlatStepAsWritten(start, vs[0]).None?;
    assert FlatStep(start, vs[0]) == Some(FlatScan(true, []));
  }

  /** read_dihres_flat, corrected: the values of the section's lines, or the first bad line. */
  method ReadDihresFlat(lines: seq<String>) returns (r: Result<seq<real>, ReadError>)
    ensures DihresFlat(Views(lines, DihresHeader)).Err? ==> r == Err(DihresFlat(Views(lines, DihresHeader)).error)
    ensures DihresFlat(Views(lines, DihresHeader)).Ok? ==> r == Ok(DihresFlat(Views(lines, DihresHeader)).value.values)
  {
    ghost var vs := Views(lines, DihresHeader);
    var d: seq<real> := [];
    var dihsect := false;
    for i := 0 to |lines|
      invariant DihresFlat(vs[..i]) == Ok(FlatScan(dihsect, d))
    {
      var line := lines[i];
      DihresFlatNext(vs, i, FlatScan(dihsect, d));
      if dihsect && |line| == 0 {
        DihresFlatStops(vs, i + 1);
        return Err(Malformed(i));
      }
      if dihsect && line[0] != ';' {
        var v := DihedralValue(line);
        if v.None? {
          DihresFlatStops(vs, i + 1);
          return Err(Malformed(i));
        }
        d := d + [v.value];
      }
      if !dihsect && StartsWith(line, DihresHeader) {
        dihsect := true;
      }
    }
    assert vs[..|lines|] == vs;
    return Ok(d);
  }

  // ---------------------------------------------------------------- read_dihres

  /** read_dihres's dictionary: per residue, per chain, `[phi]` or `[phi, psi]`. */
  type Dihedrals = map<int, seq<seq<real>>>

  /** A failure of read_dihres: the chain whose file raised, and where. */
  datatype ChainError = InChain(chain: nat, error: ReadError)

  /** The state read_dihres carries through one chain's file. */
  datatype ChainScan = ChainScan(d: Dihedrals, dihsect: bool, ridx: nat, psiNext: bool)

  /**
   * One line of chain `ch`'s file: inside the section a value line adds a
   * phi (a new chain entry for residue `rsel[ridx]`) or a psi (completing
   * that entry and moving to the next residue); None where the source
   * raises, including a residue index past the end of `rsel` and a psi
   * for a residue with no entry `ch`.
   */
  function DihresStep(st: ChainScan, v: LineView, ch: nat, rsel: seq<int>): (r: Option<ChainScan>)
    ensures r.Some? ==> r.value.d.Keys == st.d.Keys
  {
    if st.dihsect && v.empty then None
    else if st.dihsect && !v.comment then
      match v.value
      case None => None
      case Some(x) =>
        if st.ridx >= |rsel| || rsel[st.ridx] !in st.d then None
        else
          var res := rsel[st.ridx];
          var entries := st.d[res];
          if !st.psiNext then
            Some(ChainScan(st.d[res := entries + [[x]]], true, st.ridx, true))
          else if ch >= |entries| then None
          else
            Some(ChainScan(st.d[res := entries[ch := entries[ch] + [x]]], true, st.ridx + 1, false))
    else Some(st.(dihsect := st.dihsect || v.header))
  }

  /** read_dihres over the first lines of chain `ch`'s file, starting from dictionary `d`. */
  function ChainRead(d: Dihedrals, vs: seq<LineView>, ch: nat, rsel: seq<int>): (r: Result<ChainScan, ReadError>)
    ensures r.Err? ==> r.error.line < |vs|
    ensures r.Ok? ==> r.value.d.Keys == d.Keys
    decreases |vs|
  {
    if |vs| == 0 then Ok(ChainScan(d, false, 0, false))
    else
      var n := |vs| - 1;
      match ChainRead(d, vs[..n], ch, rsel)
      case Err(e) => Err(e)
      case Ok(st) =>
        match DihresStep(st, vs[n], ch, rsel)
        case None => Err(Malformed(n))
        case Some(st') => Ok(st')
  }

  lemma {:induction false} ChainReadStops(d: Dihedrals, vs: seq<LineView>, i: nat, ch: nat, rsel: seq<int>)
    requires i <= |vs| && ChainRead(d, vs[..i], ch, rsel).Err?
    ensures ChainRead(d, vs, ch, rsel) == ChainRead(d, vs[..i], ch, rsel)
    decreases |vs| - i
  {
    if i < |vs| {
      assert vs[..i + 1][..i] == vs[..i];
      ChainReadStops(d, vs, i + 1, ch, rsel);
    } else {
      assert vs[..i] == vs;
    }
  }

  lemma ChainReadNext(d: Dihedrals, vs: seq<LineView>, i: nat, ch: nat, rsel: seq<int>, st: ChainScan)
    requires i < |vs| && ChainRead(d, vs[..i], ch, rsel) == Ok(st)
    ensures DihresStep(st, vs[i], ch, rsel).None? ==> ChainRead(d, vs[..i + 1], ch, rsel) == Err(Malformed(i))
    ensures DihresStep(st, vs[i], ch, rsel).Some? ==>
      ChainRead(d, vs[..i + 1], ch, rsel) == Ok(DihresStep(st, vs[i], ch, rsel).value)
  {
    assert vs[..i + 1][..i] == vs[..i];
  }

  /** A phi value line starts entry `ch` of the current residue. */
  lemma PhiStep(st: ChainScan, v: LineView, ch: nat, rsel: seq<int>, x: real)
    requires st.dihsect && BodyView(v, x)
    requires st.ridx < |rsel| && rsel[st.ridx] in st.d && !st.psiNext
    ensures DihresStep(st, v, ch, rsel) ==
      Some(ChainScan(st.d[rsel[st.ridx] := st.d[rsel[st.ridx]] + [[x]]], true, st.ridx, true))
  {
  }

  /** A psi value line completes entry `ch` of the current residue and moves to the next one. */
  lemma PsiStep(st: ChainScan, v: LineView, ch: nat, rsel: seq<int>, x: real)
    requires st.dihsect && BodyView(v, x)
    requires st.ridx < |rsel| && rsel[st.ridx] in st.d && st.psiNext && ch < |st.d[rsel[st.ridx]]|
    ensures DihresStep(st, v, ch, rsel) ==
      Some(ChainScan(st.d[rsel[st.ridx] := st.d[rsel[st.ridx]][ch := st.d[rsel[st.ridx]][ch] + [x]]], true, st.ridx + 1, false))
  {
  }

  /**
   * One pass of read_dihres's inner loop over `line`, on the loop's local
   * variables; `ok` is false where the source raises.
   */
  method ChainLine(line: String, hdr: String, dd: Dihedrals, dihsect: bool, ridx: nat, p: int, ch: nat, rsel: seq<int>)
    returns (ok: bool, dd': Dihedrals, dihsect': bool, ridx': nat, p': int)
    requires p == 0 || p == 1
    ensures p' == 0 || p' == 1
    ensures var next := DihresStep(ChainScan(dd, dihsect, ridx, p == 1), View(line, hdr), ch, rsel);
      ok == next.Some? && (ok ==> next.value == ChainScan(dd', dihsect', ridx', p' == 1))
  {
    ok, dd', dihsect', ridx', p' := true, dd, dihsect, ridx, p;
    if dihsect && |line| == 0 {
      return false, dd', dihsect', ridx', p';
    }
    if dihsect && line[0] != ';' {
      var v := DihedralValue(line);
      if v.None? || ridx >= |rsel| || rsel[ridx] !in dd {
        return false, dd', dihsect', ridx', p';
      }
      var res := rsel[ridx];
      if p == 0 {
        dd', p' := dd[res := dd[res] + [[v.value]]], 1;
      } else {
        if ch >= |dd[res]| {
          return false, dd', dihsect', ridx', p';
        }
        dd', p', ridx' := dd[res := dd[res][ch := dd[res][ch] + [v.value]]], 0, ridx + 1;
      }
    }
    if !dihsect && StartsWith(line, hdr) {
      dihsect' := true;
    }
  }

  /** One chain's file read into `d`, as read_dihres's inner loop does. */
  method ReadChain(d: Dihedrals, lines: seq<String>, ch: nat, rsel: seq<int>, hdr: String) returns (r: Result<Dihedrals, ReadError>)
    ensures ChainRead(d, Views(lines, hdr), ch, rsel).Err? ==> r == Err(ChainRead(d, Views(lines, hdr), ch, rsel).error)
    ensures ChainRead(d, Views(lines, hdr), ch, rsel).Ok? ==> r == Ok(ChainRead(d, Views(lines, hdr), ch, rsel).value.d)
  {
    ghost var vs := Views(lines, hdr);
    var dd := d;
    var dihsect := false;
    var ridx: nat := 0;
    var p := 0;
    for i := 0 to |lines|
      invariant p == 0 || p == 1
      invariant ChainRead(d, vs[..i], ch, rsel) == Ok(ChainScan(dd, dihsect, ridx, p == 1))
    {
      ChainReadNext(d, vs, i, ch, rsel, ChainScan(dd, dihsect, ridx, p == 1));
      var ok;
      ok, dd, dihsect, ridx, p := ChainLine(lines[i], hdr, dd, dihsect, ridx, p, ch, rsel);
      if !ok {
        ChainReadStops(d, vs, i + 1, ch, rsel);
        return Err(Malformed(i));
      }
    }
    assert vs[..|lines|] == vs;
    return Ok(dd);
  }

  /** The dictionary read_dihres starts from: an empty list per selected residue. */
  function EmptyPerResidue(rsel: seq<int>): (d: Dihedrals)
    ensures forall r :: r in d <==> r in rsel
    ensures forall r :: r in d ==> d[r] == []
  {
    map r | r in rsel :: []
  }

  lemma EmptyPerResidueSnoc(rsel: seq<int>, res: int)
    ensures EmptyPerResidue(rsel + [res]) == EmptyPerResidue(rsel)[res := []]
  {
    var a, b := EmptyPerResidue(rsel + [res]), EmptyPerResidue(rsel)[res := []];
    assert forall k :: k in a <==> k in b;
  }

  /** read_dihres over the files of the first chains; `hdr` is the section header. */
  function DihresRead(chains: seq<seq<String>>, rsel: seq<int>, hdr: String): (r: Result<Dihedrals, ChainError>)
    ensures r.Err? ==> r.error.chain < |chains|
    ensures r.Ok? ==> forall res :: res in r.value <==> res in rsel
    decreases |chains|
  {
    if |chains| == 0 then Ok(EmptyPerResidue(rsel))
    else
      var n := |chains| - 1;
      match DihresRead(chains[..n], rsel, hdr)
      case Err(e) => Err(e)
      case Ok(d) =>
        match ChainRead(d, Views(chains[n], hdr), n, rsel)
        case Err(e) => Err(InChain(n, e))
        case Ok(st) => Ok(st.d)
  }

  lemma {:induction false} DihresReadStops(chains: seq<seq<String>>, i: nat, rsel: seq<int>, hdr: String)
    requires i <= |chains| && DihresRead(chains[..i], rsel, hdr).Err?
    ensures DihresRead(chains, rsel, hdr) == DihresRead(chains[..i], rsel, hdr)
    decreases |chains| - i
  {
    if i < |chains| {
      assert chains[..i + 1][..i] == chains[..i];
      DihresReadStops(chains, i + 1, rsel, hdr);
    } else {
      assert chains[..i] == chains;
    }
  }

  /**
   * read_dihres: chain by chain (`chains[ch]` is the file of chain `ch`),
   * the dihedral values of each file's section distributed over `rsel`.
   */
  method ReadDihres(chains: seq<seq<String>>, rsel: seq<int>) returns (r: Result<Dihedrals, ChainError>)
    ensures r == DihresRead(chains, rsel, DihresHeader)
  {
    var d: Dihedrals := map[];
    for k := 0 to |rsel|
      invariant d == EmptyPerResidue(rsel[..k])
    {
      assert rsel[..k + 1] == rsel[..k] + [rsel[k]];
      EmptyPerResidueSnoc(rsel[..k], rsel[k]);
      d := d[rsel[k] := []];
    }
    assert rsel[..|rsel|] == rsel;
    for ch := 0 to |chains|
      invariant DihresRead(chains[..ch], rsel, DihresHeader) == Ok(d)
    {
      assert chains[..ch + 1][..ch] == chains[..ch];
      var next := ReadChain(d, chains[ch], ch, rsel, DihresHeader);
      if next.Err? {
        DihresReadStops(chains, ch + 1, rsel, DihresHeader);
        return Err(InChain(ch, next.error));
      }
      d := next.value;
    }
    assert chains[..|chains|] == chains;
    return Ok(d);
  }

  // ---------------------------------------------------------------- read_dihres on well-formed files

  ghost predicate Distinct(rsel: seq<int>) {
    forall i, j :: 0 <= i < j < |rsel| ==> rsel[i] != rsel[j]
  }

  /**
   * A chain's file as read_dihres expects it: lines without the section
   * header, the header at `start`, then one value line per entry of `values`.
   */
  ghost predicate SectionShape(lines: seq<String>, start: nat, values: seq<real>, hdr: String) {
    start < |lines| && |lines| == start + 1 + |values| &&
    (forall i :: 0 <= i < start ==> !StartsWith(lines[i], hdr)) &&
    StartsWith(lines[start], hdr) &&
    forall j :: 0 <= j < |values| ==> BodyLine(lines[start + 1 + j], values[j])
  }

  /** SectionShape, said of the lines' views. */
  ghost predicate ViewShape(vs: seq<LineView>, start: nat, values: seq<real>) {
    start < |vs| && |vs| == start + 1 + |values| &&
    (forall i :: 0 <= i < start ==> !vs[i].header) &&
    vs[start].header &&
    forall j :: 0 <= j < |values| ==> BodyView(vs[start + 1 + j], values[j])
  }

  lemma ShapeViews(lines: seq<String>, start: nat, values: seq<real>, hdr: String)
    requires SectionShape(lines, start, values, hdr)
    ensures ViewShape(Views(lines, hdr), start, values)
  {
    var vs := Views(lines, hdr);
    forall j | 0 <= j < |values| ensures BodyView(vs[start + 1 + j], values[j]) {
      assert BodyLine(lines[start + 1 + j], values[j]);
    }
  }

  /**
   * The dictionary after the first `q` residues of `rsel` got their
   * [phi, psi] entry from `values` (and, when `half`, residue `q` its phi),
   * starting from `d0`.
   */
  ghost predicate Partial(d0: Dihedrals, d: Dihedrals, values: seq<real>, rsel: seq<int>, q: nat, half: bool) {
    q + (if half then 1 else 0) <= |rsel| && 2 * q + (if half then 1 else 0) <= |values| &&
    (forall j :: 0 <= j < |rsel| ==> rsel[j] in d0 && rsel[j] in d) &&
    (forall j :: 0 <= j < q ==> d[rsel[j]] == d0[rsel[j]] + [[values[2 * j], values[2 * j + 1]]]) &&
    (half ==> d[rsel[q]] == d0[rsel[q]] + [[values[2 * q]]]) &&
    (forall j :: q + (if half then 1 else 0) <= j < |rsel| ==> d[rsel[j]] == d0[rsel[j]])
  }

  lemma ChainReadSnoc(d: Dihedrals, xs: seq<LineView>, v: LineView, ch: nat, rsel: seq<int>, st: ChainScan)
    requires ChainRead(d, xs, ch, rsel) == Ok(st)
    ensures DihresStep(st, v, ch, rsel).Some? ==>
      ChainRead(d, xs + [v], ch, rsel) == Ok(DihresStep(st, v, ch, rsel).value)
  {
    assert (xs + [v])[..|xs|] == xs;
  }

  lemma SetAfterPrefix<T>(a: seq<T>, x: T, y: T)
    ensures (a + [x])[|a| := y] == a + [y]
  {
  }

  /** A phi value keeps the dictionary as expected, now half-way through residue `q`. */
  lemma PartialPhi(d0: Dihedrals, d: Dihedrals, values: seq<real>, rsel: seq<int>, q: nat)
    requires Distinct(rsel) && Partial(d0, d, values, rsel, q, false)
    requires q < |rsel| && 2 * q < |values| && rsel[q] in d
    ensures Partial(d0, d[rsel[q] := d[rsel[q]] + [[values[2 * q]]]], values, rsel, q, true)
  {
    var d' := d[rsel[q] := d[rsel[q]] + [[values[2 * q]]]];
    forall j | 0 <= j < |rsel| && j != q ensures d'[rsel[j]] == d[rsel[j]] {
      assert rsel[j] != rsel[q];
    }
  }

  /** A psi value completes residue `q`'s entry `ch`. */
  lemma PartialPsi(d0: Dihedrals, d: Dihedrals, values: seq<real>, rsel: seq<int>, q: nat, ch: nat)
    requires Distinct(rsel) && Partial(d0, d, values, rsel, q, true)
    requires 2 * q + 1 < |values| && rsel[q] in d && |d0[rsel[q]]| == ch
    ensures ch < |d[rsel[q]]|
    ensures Partial(d0, d[rsel[q] := d[rsel[q]][ch := d[rsel[q]][ch] + [values[2 * q + 1]]]], values, rsel, q + 1, false)
  {
    var r := rsel[q];
    var d' := d[r := d[r][ch := d[r][ch] + [values[2 * q + 1]]]];
    assert d[r] == d0[r] + [[values[2 * q]]];
    assert d[r][ch] + [values[2 * q + 1]] == [values[2 * q], values[2 * q + 1]];
    SetAfterPrefix(d0[r], [values[2 * q]], [values[2 * q], values[2 * q + 1]]);
    forall j | 0 <= j < |rsel| && j != q ensures d'[rsel[j]] == d[rsel[j]] {
      assert rsel[j] != r;
    }
  }

  /**
   * After the header and `2q` (+1 when `half`) value lines, the scan is at
   * residue `q`, expecting psi exactly when `half`, with the dictionary as
   * Partial describes.
   */
  lemma {:induction false} ChainSectionPrefix(d0: Dihedrals, head: seq<LineView>, body: seq<LineView>, values: seq<real>,
                                              ch: nat, rsel: seq<int>, q: nat, half: bool)
    requires ChainRead(d0, head, ch, rsel) == Ok(ChainScan(d0, true, 0, false))
    requires |body| == |values| <= 2 * |rsel|
    requires forall j {:trigger BodyView(body[j], values[j])} :: 0 <= j < |body| ==> BodyView(body[j], values[j])
    requires Distinct(rsel) && forall r :: r in rsel ==> r in d0 && |d0[r]| == ch
    requires Count(q, half) <= |body|
    ensures ChainRead(d0, head + body[..Count(q, half)], ch, rsel).Ok?
    ensures var st := ChainRead(d0, head + body[..Count(q, half)], ch, rsel).value;
      st.dihsect && st.ridx == q && st.psiNext == half && Partial(d0, st.d, values, rsel, q, half)
    decreases Count(q, half)
  {
    if q == 0 && !half {
      assert head + body[..0] == head;
    } else {
      var pq := if half then q else q - 1;
      ChainSectionPrefix(d0, head, body, values, ch, rsel, pq, !half);
      SectionAdvance(d0, head, body, values, ch, rsel, pq, !half, q, half);
    }
  }

  /** ChainSectionPrefix's step: from `Count(q, half)` value lines to one more. */
  lemma SectionAdvance(d0: Dihedrals, head: seq<LineView>, body: seq<LineView>, values: seq<real>,
                       ch: nat, rsel: seq<int>, q: nat, half: bool, q': nat, half': bool)
    requires |body| == |values| <= 2 * |rsel|
    requires forall j {:trigger BodyView(body[j], values[j])} :: 0 <= j < |body| ==> BodyView(body[j], values[j])
    requires Distinct(rsel) && forall r :: r in rsel ==> r in d0 && |d0[r]| == ch
    requires Count(q, half) < |body|
    requires ChainRead(d0, head + body[..Count(q, half)], ch, rsel).Ok?
    requires var st := ChainRead(d0, head + body[..Count(q, half)], ch, rsel).value;
      st.dihsect && st.ridx == q && st.psiNext == half && Partial(d0, st.d, values, rsel, q, half)
    requires q' == (if half then q + 1 else q) && half' == !half
    ensures ChainRead(d0, head + body[..Count(q', half')], ch, rsel).Ok?
    ensures var st := ChainRead(d0, head + body[..Count(q', half')], ch, rsel).value;
      st.dihsect && st.ridx == q' && st.psiNext == half' && Partial(d0, st.d, values, rsel, q', half')
  {
    var k := Count(q, half);
    assert Count(q', half') == k + 1;
    PrefixSnoc(head, body, k);
    assert BodyView(body[k], values[k]);
    var xs := head + body[..k];
    var st := ChainRead(d0, xs, ch, rsel).value;
    SectionStep(d0, st, body[k], values, ch, rsel, q, half);
    ChainReadSnoc(d0, xs, body[k], ch, rsel, st);
  }

  /** The number of values read after `q` residues, plus the pending phi when `half`. */
  function Count(q: nat, half: bool): nat {
    2 * q + (if half then 1 else 0)
  }

  /** One more value line of the section moves the scan on by one value. */
  lemma SectionStep(d0: Dihedrals, st: ChainScan, v: LineView, values: seq<real>, ch: nat, rsel: seq<int>, q: nat, half: bool)
    requires st.dihsect && st.ridx == q && st.psiNext == half && Partial(d0, st.d, values, rsel, q, half)
    requires Distinct(rsel) && forall r :: r in rsel ==> r in d0 && |d0[r]| == ch
    requires Count(q, half) < |values| <= 2 * |rsel|
    requires BodyView(v, values[Count(q, half)])
    ensures DihresStep(st, v, ch, rsel).Some?
    ensures var st' := DihresStep(st, v, ch, rsel).value;
      var q' := if half then q + 1 else q;
      st'.dihsect && st'.ridx == q' && st'.psiNext == !half && Partial(d0, st'.d, values, rsel, q', !half)
  {
    var k := Count(q, half);
    assert q < |rsel|;
    assert rsel[q] in rsel && rsel[q] in st.d;
    if !half {
      PhiStep(st, v, ch, rsel, values[k]);
      PartialPhi(d0, st.d, values, rsel, q);
    } else {
      PartialPsi(d0, st.d, values, rsel, q, ch);
      PsiStep(st, v, ch, rsel, values[k]);
    }
  }

  lemma PrefixSnoc<T>(a: seq<T>, b: seq<T>, k: nat)
    requires k < |b|
    ensures a + b[..k + 1] == (a + b[..k]) + [b[k]]
  {
    assert b[..k + 1] == b[..k] + [b[k]];
  }

  /** The lines before the header: nothing is read and nothing raises. */
  lemma {:induction false} ChainBeforeSection(d0: Dihedrals, pre: seq<LineView>, ch: nat, rsel: seq<int>)
    requires forall i :: 0 <= i < |pre| ==> !pre[i].header
    ensures ChainRead(d0, pre, ch, rsel) == Ok(ChainScan(d0, false, 0, false))
    decreases |pre|
  {
    if |pre| > 0 {
      ChainBeforeSection(d0, pre[..|pre| - 1], ch, rsel);
    }
  }

  /**
   * A chain's file with one value line per phi and psi of every selected
   * residue, in `rsel` order, adds to each residue the entry [phi, psi].
   */
  lemma ChainReadsSection(d0: Dihedrals, vs: seq<LineView>, start: nat, values: seq<real>, ch: nat, rsel: seq<int>)
    requires ViewShape(vs, start, values) && |values| == 2 * |rsel|
    requires Distinct(rsel) && forall r :: r in rsel ==> r in d0 && |d0[r]| == ch
    ensures ChainRead(d0, vs, ch, rsel).Ok?
    ensures Partial(d0, ChainRead(d0, vs, ch, rsel).value.d, values, rsel, |rsel|, false)
  {
    var pre := vs[..start];
    var head := pre + [vs[start]];
    var body := vs[start + 1..];
    forall i | 0 <= i < |pre| ensures !pre[i].header {
      assert pre[i] == vs[i];
    }
    ChainBeforeSection(d0, pre, ch, rsel);
    ChainReadSnoc(d0, pre, vs[start], ch, rsel, ChainScan(d0, false, 0, false));
    forall j | 0 <= j < |body| ensures BodyView(body[j], values[j]) {
      assert body[j] == vs[start + 1 + j];
    }
    ChainSectionPrefix(d0, head, body, values, ch, rsel, |rsel|, false);
    Reassemble(vs, start, Count(|rsel|, false));
  }

  lemma Reassemble<T>(s: seq<T>, i: nat, n: nat)
    requires i < |s| && n == |s| - i - 1
    ensures s[..i] + [s[i]] + s[i + 1..][..n] == s
  {
    assert s[i + 1..][..n] == s[i + 1..];
    assert s[..i] + [s[i]] == s[..i + 1];
  }

  /**
   * read_dihres on files that all have the expected section: every selected
   * residue gets one entry per chain, in chain order, holding that chain's
   * phi and psi for it.
   */
  lemma {:induction false} DihresReadsSections(chains: seq<seq<String>>, starts: seq<nat>, values: seq<seq<real>>, rsel: seq<int>, hdr: String)
    requires |starts| == |chains| && |values| == |chains| && Distinct(rsel)
    requires forall c :: 0 <= c < |chains| ==> SectionShape(chains[c], starts[c], values[c], hdr) && |values[c]| == 2 * |rsel|
    ensures DihresRead(chains, rsel, hdr).Ok?
    ensures forall j :: 0 <= j < |rsel| ==> |DihresRead(chains, rsel, hdr).value[rsel[j]]| == |chains|
    ensures forall j, c :: 0 <= j < |rsel| && 0 <= c < |chains| ==>
      DihresRead(chains, rsel, hdr).value[rsel[j]][c] == [values[c][2 * j], values[c][2 * j + 1]]
    decreases |chains|
  {
    if |chains| > 0 {
      var n := |chains| - 1;
      var init, starts', values' := chains[..n], starts[..n], values[..n];
      forall c | 0 <= c < n ensures SectionShape(init[c], starts'[c], values'[c], hdr) && |values'[c]| == 2 * |rsel| {
        assert init[c] == chains[c] && starts'[c] == starts[c] && values'[c] == values[c];
      }
      DihresReadsSections(init, starts', values', rsel, hdr);
      var d0 := DihresRead(init, rsel, hdr).value;
      forall r | r in rsel ensures r in d0 && |d0[r]| == n {
        var j :| 0 <= j < |rsel| && rsel[j] == r;
      }
      var vs := Views(chains[n], hdr);
      ShapeViews(chains[n], starts[n], values[n], hdr);
      ChainReadsSection(d0, vs, starts[n], values[n], n, rsel);
      var d := ChainRead(d0, vs, n, rsel).value.d;
      DihresReadSnoc(chains, rsel, hdr);
      forall j, c | 0 <= j < |rsel| && 0 <= c < |chains|
        ensures d[rsel[j]][c] == [values[c][2 * j], values[c][2 * j + 1]]
      {
        var r := rsel[j];
        var entry := [values[n][2 * j], values[n][2 * j + 1]];
        assert d[r] == d0[r] + [entry];
        AppendIndex(d0[r], entry, c);
        if c < n {
          assert values'[c] == values[c];
        }
      }
    }
  }

  lemma AppendIndex<T>(a: seq<T>, x: T, c: nat)
    requires c <= |a|
    ensures c < |a| ==> (a + [x])[c] == a[c]
    ensures c == |a| ==> (a + [x])[c] == x
  {
  }

  lemma DihresReadSnoc(chains: seq<seq<String>>, rsel: seq<int>, hdr: String)
    requires |chains| > 0
    requires DihresRead(chains[..|chains| - 1], rsel, hdr).Ok?
    requires ChainRead(DihresRead(chains[..|chains| - 1], rsel, hdr).value, Views(chains[|chains| - 1], hdr), |chains| - 1, rsel).Ok?
    ensures DihresRead(chains, rsel, hdr) ==
      Ok(ChainRead(DihresRead(chains[..|chains| - 1], rsel, hdr).value, Views(chains[|chains| - 1], hdr), |chains| - 1, rsel).value.d)
  {
  }
}
