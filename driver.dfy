/** The part of `main` in Matt.py after argument parsing: the fixed report
    layout, the extraction over the input files, and the writing of every
    fragment to the output descriptor. */
module Driver {
  import opened Lines
  import opened Token
  import opened IoDesc
  import opened Parser

  /** The four nominal values of a report: nine characters at column 26 of
      rows 17, 14, 23 and 20, in that order (pin1 to pin4). */
  const DefaultLayout: seq<Window> :=
    [Window(17, 26, 9), Window(14, 26, 9), Window(23, 26, 9), Window(20, 26, 9)]

  method MakeDefaultTokens() returns (allTokens: seq<MetrologyReportToken>)
    ensures Windows(allTokens) == DefaultLayout
    ensures |allTokens| == 4
    ensures allTokens[0].name == "pin1 nominal value" && allTokens[1].name == "pin2 nominal value"
    ensures allTokens[2].name == "pin3 nominal value" && allTokens[3].name == "pin4 nominal value"
    ensures forall t :: t in allTokens ==> fresh(t)
  {
    var pin1Token := new MetrologyReportToken("pin1 nominal value", 26, 9, 17);
    var pin2Token := new MetrologyReportToken("pin2 nominal value", 26, 9, 14);
    var pin3Token := new MetrologyReportToken("pin3 nominal value", 26, 9, 23);
    var pin4Token := new MetrologyReportToken("pin4 nominal value", 26, 9, 20);
    allTokens := [pin1Token, pin2Token, pin3Token, pin4Token];
  }

  /** A report fits the layout exactly when it has at least 24 lines and each
      of lines 14, 17, 20 and 23 has at least 36 characters; its record is
      then the name and four fields of nine characters. */
  lemma DefaultLayoutFits(lines: seq<string>)
    ensures DocumentFields(lines, DefaultLayout).Success?
            <==> |lines| >= 24 && |lines[14]| >= 36 && |lines[17]| >= 36
                 && |lines[20]| >= 36 && |lines[23]| >= 36
    ensures DocumentFields(lines, DefaultLayout).Success? ==>
      && |DocumentFields(lines, DefaultLayout).fragments| == 4
      && forall i :: 0 <= i < 4 ==>
           DocumentFields(lines, DefaultLayout).fragments[i] == lines[DefaultLayout[i].rowOffset][26..35] + Separator
  {
    DocumentFieldsSpec(lines, DefaultLayout);
    assert forall i :: 0 <= i < 4 ==> DefaultLayout[i].columnOffset == 26 && DefaultLayout[i].columnWidth == 9;
    if DocumentFields(lines, DefaultLayout).Success? {
      assert Fits(lines, DefaultLayout[0]) && Fits(lines, DefaultLayout[1]);
      assert Fits(lines, DefaultLayout[2]) && Fits(lines, DefaultLayout[3]);
    }
  }

  /** The defect of the row check as written: pin1, the first token tried,
      is on row 17, so a report of exactly 17 lines gets past the check and
      indexes past the last line, where the corrected check rejects it. */
  lemma SeventeenLineReportRaises(lines: seq<string>)
    requires |lines| == 17
    ensures FindAsWritten(lines, DefaultLayout[0]) == RowIndexError
    ensures DocumentFields(lines, DefaultLayout) == Failure
  {
  }

  /** The text of a list of fragments written one after the other. */
  function Concat(fragments: seq<string>): (s: string)
    ensures fragments == [] ==> s == ""
    ensures |fragments| == 1 ==> s == fragments[0]
  {
    if fragments == [] then "" else Concat(fragments[..|fragments| - 1]) + fragments[|fragments| - 1]
  }

  /** Writing two lists of fragments one after the other writes the text of
      the first followed by the text of the second. */
  lemma {:induction false} ConcatAppend(a: seq<string>, b: seq<string>)
    ensures Concat(a + b) == Concat(a) + Concat(b)
    decreases |b|
  {
    if b == [] {
      assert a + b == a;
    } else {
      var front := b[..|b| - 1];
      assert (a + b)[..|a + b| - 1] == a + front;
      assert (a + b)[|a + b| - 1] == b[|b| - 1];
      ConcatAppend(a, front);
    }
  }

  /** The output loop of main: every fragment goes to the output descriptor in
      order, and the status of each write is ignored. A named destination that
      is writable ends up holding everything written through the descriptor;
      one that is not is left as it was. */
  method WriteAll(oDesc: ODesc, host: Host, tokenString: seq<string>)
    requires oDesc.Valid(host)
    modifies oDesc, host
    ensures oDesc.Valid(host)
    ensures oDesc.mode.Std? ==>
      host.stdout == old(host.stdout) + Concat(tokenString) && host.files == old(host.files)
    ensures oDesc.mode.Files? ==> host.stdout == old(host.stdout)
    ensures oDesc.mode.Files? && oDesc.mode.names[0] in host.writable ==>
      && oDesc.written == old(oDesc.written) + Concat(tokenString)
      && oDesc.firstWriteDone == (old(oDesc.firstWriteDone) || tokenString != [])
      && host.files == if oDesc.firstWriteDone then old(host.files)[oDesc.mode.names[0] := oDesc.written]
                       else old(host.files)
    ensures oDesc.mode.Files? && oDesc.mode.names[0] !in host.writable ==>
      host.files == old(host.files) && oDesc.written == old(oDesc.written)
  {
    var i := 0;
    while i < |tokenString|
      invariant 0 <= i <= |tokenString|
      invariant oDesc.Valid(host)
      invariant oDesc.mode.Std? ==>
        host.stdout == old(host.stdout) + Concat(tokenString[..i]) && host.files == old(host.files)
      invariant oDesc.mode.Files? ==> host.stdout == old(host.stdout)
      invariant oDesc.mode.Files? && oDesc.mode.names[0] in host.writable ==>
        oDesc.written == old(oDesc.written) + Concat(tokenString[..i])
      invariant oDesc.mode.Files? && oDesc.mode.names[0] in host.writable ==>
        oDesc.firstWriteDone == (old(oDesc.firstWriteDone) || i > 0)
      invariant oDesc.mode.Files? && oDesc.mode.names[0] in host.writable ==>
        host.files == if oDesc.firstWriteDone then old(host.files)[oDesc.mode.names[0] := oDesc.written]
                      else old(host.files)
      invariant oDesc.mode.Files? && oDesc.mode.names[0] !in host.writable ==>
        host.files == old(host.files) && oDesc.written == old(oDesc.written)
    {
      var itemStr := tokenString[i];
      assert tokenString[..i + 1][..i] == tokenString[..i];
      assert Concat(tokenString[..i + 1]) == Concat(tokenString[..i]) + itemStr;
      var _ := oDesc.Write(host, itemStr);
      i := i + 1;
    }
    assert tokenString[..i] == tokenString;
  }

  /** The extraction and output of main. A run succeeds exactly when the input
      names select named files and every one of them opens and fits the
      layout; it then sends the concatenated records to standard output when
      no output name is given, and otherwise replaces the output file with
      them if that file is writable. A failing run writes no records. */
  method Run(host: Host, inFileNames: seq<string>, outFileName: string) returns (status: OsReturn)
    modifies host
    ensures var r := if SelectMode(inFileNames).Std? then Failure
                     else BatchFrom(old(host.files), inFileNames, DefaultLayout);
      && (status == Ok <==> r.Success?)
      && (status == Error ==> host.files == old(host.files) && host.stdout == old(host.stdout))
      && (status == Ok && outFileName == "" ==>
            host.stdout == old(host.stdout) + Concat(r.fragments) && host.files == old(host.files))
      && (status == Ok && outFileName != "" ==>
            && host.stdout == old(host.stdout)
            && host.files == if outFileName in host.writable
                             then old(host.files)[outFileName := Concat(r.fragments)]
                             else old(host.files))
  {
    var iDesc := new IDesc(inFileNames);
    var allTokens := MakeDefaultTokens();
    var mrParser := new MetrologyReportParser(iDesc);
    var retVal, tokenString := mrParser.GetTokensAsString(host, allTokens);
    if retVal != Ok {
      return retVal;
    }
    if SelectMode(inFileNames).Files? {
      BatchNotEmpty(host.files, inFileNames, DefaultLayout);
    }
    var oDesc := new ODesc(outFileName);
    WriteAll(oDesc, host, tokenString);
    if outFileName != "" && outFileName in host.writable {
      assert oDesc.mode.names[0] == outFileName;
      assert oDesc.written == Concat(tokenString);
    }
    return Ok;
  }

  /** A report whose line 17 holds `abcdefghi` at columns 26 to 34, followed by
      one more character. */
  const SampleLines: seq<string> :=
    seq(17, i => "") + ["..........................abcdefghi."]

  /** The same report with nothing after the field. */
  const ShortLines: seq<string> :=
    seq(17, i => "") + ["..........................abcdefghi"]

  const Pin1Only: seq<Window> := [Window(17, 26, 9)]

  lemma SampleLinesSplit()
    ensures SplitLines(JoinLines(SampleLines)) == SampleLines
  {
    assert forall j :: 0 <= j < 17 ==> SampleLines[j] == "";
    assert NoBreaks(SampleLines[17]);
    SplitJoin(SampleLines);
  }

  lemma ShortLinesSplit()
    ensures SplitLines(JoinLines(ShortLines)) == ShortLines
  {
    assert forall j :: 0 <= j < 17 ==> ShortLines[j] == "";
    assert NoBreaks(ShortLines[17]);
    SplitJoin(ShortLines);
  }

  lemma SampleFields()
    ensures DocumentFields(SampleLines, Pin1Only) == Success(["abcdefghi, "])
    ensures DocumentFields(ShortLines, Pin1Only) == Failure
  {
    assert Fits(SampleLines, Pin1Only[0]);
    assert Field(SampleLines, Pin1Only[0]) == "abcdefghi";
    assert Fragment(SampleLines, Pin1Only[0]) == "abcdefghi, ";
    assert DocumentFields(SampleLines, Pin1Only[1..]) == Success([]);
    assert !Fits(ShortLines, Pin1Only[0]);
  }

  lemma SampleRecord()
    ensures DocumentOk(map["r1.txt" := JoinLines(SampleLines)], "r1.txt", Pin1Only)
    ensures RecordOf(map["r1.txt" := JoinLines(SampleLines)], "r1.txt", Pin1Only)
            == ["r1.txt, ", "abcdefghi, ", "\n"]
  {
    SampleLinesSplit();
    SampleFields();
    assert "r1.txt" + Separator == "r1.txt, ";
    assert Record("r1.txt", ["abcdefghi, "]) == ["r1.txt, ", "abcdefghi, ", "\n"];
  }

  /** One single-field token on that report gives the record
      "r1.txt, abcdefghi, " and the line terminator. */
  lemma SingleFieldScenario()
    ensures BatchFrom(map["r1.txt" := JoinLines(SampleLines)], ["r1.txt"], Pin1Only)
            == Success(["r1.txt, ", "abcdefghi, ", "\n"])
    ensures Concat(["r1.txt, ", "abcdefghi, ", "\n"]) == "r1.txt, abcdefghi, \n"
  {
    var files := map["r1.txt" := JoinLines(SampleLines)];
    SampleRecord();
    assert ["r1.txt"][1..] == [];
    assert BatchFrom(files, [], Pin1Only) == Success([]);
    var c3 := ["r1.txt, ", "abcdefghi, ", "\n"];
    assert c3[..2][..1] == ["r1.txt, "];
    assert Concat(c3[..2]) == "r1.txt, abcdefghi, ";
  }

  /** Two reports where the second is one character too short for the field:
      the batch fails as a whole, with no record for the first. */
  lemma SecondDocumentFailsScenario()
    ensures BatchFrom(map["r1.txt" := JoinLines(SampleLines), "r2.txt" := JoinLines(ShortLines)],
                      ["r1.txt", "r2.txt"], Pin1Only) == Failure
  {
    var files := map["r1.txt" := JoinLines(SampleLines), "r2.txt" := JoinLines(ShortLines)];
    ShortLinesSplit();
    SampleFields();
    assert !DocumentOk(files, "r2.txt", Pin1Only);
    BatchSucceedsIff(files, ["r1.txt", "r2.txt"], Pin1Only);
    assert ["r1.txt", "r2.txt"][1] == "r2.txt";
  }
}
