/** The extractor of Matt.py (class MetrologyReportParser): it applies every
    token to every document the input descriptor supplies and builds one
    record per document, `[name + ", "] + fields + [line terminator]`; any
    failure discards the whole batch. */
module Parser {
  import opened Lines
  import opened Token
  import opened IoDesc

  /** The fragments produced, or the error that discarded them. */
  datatype Result = Success(fragments: seq<string>) | Failure

  /** os.linesep, fixed to the POSIX terminator. */
  const LineSep: string := "\n"

  /** The declared windows of a token list, in order. */
  function Windows(tokens: seq<MetrologyReportToken>): (ws: seq<Window>)
    ensures |ws| == |tokens|
    ensures forall i :: 0 <= i < |tokens| ==> ws[i] == tokens[i].window
  {
    if tokens == [] then [] else [tokens[0].window] + Windows(tokens[1..])
  }

  /** The fields of one document: the tokens are tried in order, and the
      first that does not fit fails the document. */
  function DocumentFields(lines: seq<string>, ws: seq<Window>): (r: Result)
    ensures r.Success? ==> |r.fragments| == |ws|
    decreases |ws|
  {
    if ws == [] then Success([])
    else if !Fits(lines, ws[0]) then Failure
    else
      match DocumentFields(lines, ws[1..])
      case Failure => Failure
      case Success(rest) => Success([Fragment(lines, ws[0])] + rest)
  }

  /** A document succeeds exactly when every token fits it, and then its
      fragments are those of the tokens, in token order. */
  lemma {:induction false} DocumentFieldsSpec(lines: seq<string>, ws: seq<Window>)
    ensures DocumentFields(lines, ws).Success? <==> forall i :: 0 <= i < |ws| ==> Fits(lines, ws[i])
    ensures DocumentFields(lines, ws).Success? ==>
      forall i :: 0 <= i < |ws| ==> DocumentFields(lines, ws).fragments[i] == Fragment(lines, ws[i])
    decreases |ws|
  {
    if ws != [] {
      DocumentFieldsSpec(lines, ws[1..]);
      assert forall i :: 1 <= i < |ws| ==> ws[i] == ws[1..][i - 1];
    }
  }

  /** Fragments that match every token, one per token in order, are the
      fields of the document. */
  lemma DocumentFieldsAre(lines: seq<string>, ws: seq<Window>, fields: seq<string>)
    requires forall i :: 0 <= i < |ws| ==> Fits(lines, ws[i])
    requires |fields| == |ws|
    requires forall i :: 0 <= i < |ws| ==> fields[i] == Fragment(lines, ws[i])
    ensures DocumentFields(lines, ws) == Success(fields)
  {
    DocumentFieldsSpec(lines, ws);
  }

  /** One token that does not fit fails the whole document. */
  lemma DocumentFieldsFail(lines: seq<string>, ws: seq<Window>, i: nat)
    requires i < |ws| && !Fits(lines, ws[i])
    ensures DocumentFields(lines, ws) == Failure
  {
    DocumentFieldsSpec(lines, ws);
  }

  /** The record of one document. */
  function Record(fname: string, fields: seq<string>): (rec: seq<string>)
    ensures |rec| == |fields| + 2
    ensures rec[0] == fname + Separator && rec[|rec| - 1] == LineSep
    ensures rec[1..|rec| - 1] == fields
  {
    [fname + Separator] + fields + [LineSep]
  }

  /** The document opens and every token fits it. */
  predicate DocumentOk(files: map<string, string>, fname: string, ws: seq<Window>) {
    fname in files && DocumentFields(SplitLines(files[fname]), ws).Success?
  }

  /** The record of a document that is ok. */
  function RecordOf(files: map<string, string>, fname: string, ws: seq<Window>): (rec: seq<string>)
    requires DocumentOk(files, fname, ws)
  {
    Record(fname, DocumentFields(SplitLines(files[fname]), ws).fragments)
  }

  /** The output of a batch that reads the documents named, in order. */
  function BatchFrom(files: map<string, string>, names: seq<string>, ws: seq<Window>): (r: Result)
    decreases |names|
  {
    if names == [] then Success([])
    else if !DocumentOk(files, names[0], ws) then Failure
    else
      match BatchFrom(files, names[1..], ws)
      case Failure => Failure
      case Success(rest) => Success(RecordOf(files, names[0], ws) + rest)
  }

  /** All or nothing: a batch succeeds exactly when every document named opens
      and fits every token. */
  lemma {:induction false} BatchSucceedsIff(files: map<string, string>, names: seq<string>, ws: seq<Window>)
    ensures BatchFrom(files, names, ws).Success?
            <==> forall i :: 0 <= i < |names| ==> DocumentOk(files, names[i], ws)
    decreases |names|
  {
    if names != [] {
      BatchSucceedsIff(files, names[1..], ws);
      assert forall i :: 1 <= i < |names| ==> names[i] == names[1..][i - 1];
    }
  }

  /** `acc` followed by the fragments of r, or the failure of r. */
  function Then(acc: seq<string>, r: Result): (t: Result)
    ensures t.Success? <==> r.Success?
  {
    match r
    case Failure => Failure
    case Success(f) => Success(acc + f)
  }

  /** A successful batch of N documents has N * (number of tokens + 2) fragments. */
  lemma {:induction false} BatchLength(files: map<string, string>, names: seq<string>, ws: seq<Window>)
    requires BatchFrom(files, names, ws).Success?
    ensures |BatchFrom(files, names, ws).fragments| == |names| * (|ws| + 2)
    decreases |names|
  {
    if names != [] {
      BatchLength(files, names[1..], ws);
      assert |names| * (|ws| + 2) == (|names| - 1) * (|ws| + 2) + (|ws| + 2);
    }
  }

  /** The fragments of a followed by those of b, or failure when either fails. */
  function Join(a: Result, b: Result): (r: Result)
    ensures r.Success? <==> a.Success? && b.Success?
    ensures r.Success? ==> r.fragments == a.fragments + b.fragments
  {
    if a.Success? && b.Success? then Success(a.fragments + b.fragments) else Failure
  }

  /** Prefixing a record commutes with joining: Then(acc, _) and Join(_, b) can
      be applied in either order. */
  lemma ThenJoin(acc: seq<string>, a: Result, b: Result)
    ensures Then(acc, Join(a, b)) == Join(Then(acc, a), b)
  {
    if a.Success? && b.Success? {
      assert (acc + a.fragments) + b.fragments == acc + (a.fragments + b.fragments);
    }
  }

  /** A batch over two lists of names is the batch over the first followed by
      the batch over the second, and fails when either does. */
  lemma {:induction false} BatchAppend(files: map<string, string>, names1: seq<string>,
                                       names2: seq<string>, ws: seq<Window>)
    ensures BatchFrom(files, names1 + names2, ws)
            == Join(BatchFrom(files, names1, ws), BatchFrom(files, names2, ws))
    decreases |names1|
  {
    if names1 == [] {
      assert names1 + names2 == names2;
    } else {
      var fname, tail := names1[0], names1[1..];
      assert names1 == [fname] + tail;
      assert names1 + names2 == [fname] + (tail + names2);
      BatchCons(files, fname, tail, ws);
      BatchCons(files, fname, tail + names2, ws);
      BatchAppend(files, tail, names2, ws);
      if DocumentOk(files, fname, ws) {
        ThenJoin(RecordOf(files, fname, ws), BatchFrom(files, tail, ws), BatchFrom(files, names2, ws));
      }
    }
  }

  /** One unfolding of the batch: the first document fails the batch, or its
      record is followed by the batch over the rest. */
  lemma BatchCons(files: map<string, string>, fname: string, names: seq<string>, ws: seq<Window>)
    ensures BatchFrom(files, [fname] + names, ws)
            == if DocumentOk(files, fname, ws) then Then(RecordOf(files, fname, ws), BatchFrom(files, names, ws))
               else Failure
  {
    assert ([fname] + names)[0] == fname;
    assert ([fname] + names)[1..] == names;
  }

  /** A successful batch over `pre`, then x, then `post` is the batch over
      `pre`, then the record of x, then the batch over `post`. */
  lemma BatchSplit(files: map<string, string>, pre: seq<string>, x: string, post: seq<string>, ws: seq<Window>)
    requires BatchFrom(files, pre + [x] + post, ws).Success?
    ensures DocumentOk(files, x, ws)
    ensures BatchFrom(files, pre, ws).Success? && BatchFrom(files, post, ws).Success?
    ensures BatchFrom(files, pre + [x] + post, ws).fragments
            == BatchFrom(files, pre, ws).fragments + RecordOf(files, x, ws) + BatchFrom(files, post, ws).fragments
  {
    var mid := [x] + post;
    assert pre + [x] + post == pre + mid;
    BatchAppend(files, pre, mid, ws);
    var before, here := BatchFrom(files, pre, ws), BatchFrom(files, mid, ws);
    assert before.Success? && here.Success?;
    BatchCons(files, x, post, ws);
    var after := BatchFrom(files, post, ws);
    assert here == Then(RecordOf(files, x, ws), after);
    assert before.fragments + (RecordOf(files, x, ws) + after.fragments)
           == before.fragments + RecordOf(files, x, ws) + after.fragments;
  }

  /** The k-th record of a successful batch is the record of the k-th
      document, placed after the records of the k documents before it: the
      records come in read order. */
  lemma BatchRecordAt(files: map<string, string>, names: seq<string>, ws: seq<Window>, k: nat)
    requires BatchFrom(files, names, ws).Success?
    requires k < |names|
    ensures DocumentOk(files, names[k], ws)
    ensures BatchFrom(files, names[..k], ws).Success? && BatchFrom(files, names[k + 1..], ws).Success?
    ensures |BatchFrom(files, names[..k], ws).fragments| == k * (|ws| + 2)
    ensures BatchFrom(files, names, ws).fragments
            == BatchFrom(files, names[..k], ws).fragments
               + RecordOf(files, names[k], ws)
               + BatchFrom(files, names[k + 1..], ws).fragments
  {
    assert names == names[..k] + [names[k]] + names[k + 1..];
    BatchSplit(files, names[..k], names[k], names[k + 1..], ws);
    BatchLength(files, names[..k], ws);
  }

  /** Adding one more document: a failing document fails the batch whatever
      came before it, and an ok one appends its record. */
  lemma BatchStep(files: map<string, string>, fname: string, names: seq<string>,
                  ws: seq<Window>, acc: seq<string>)
    ensures !DocumentOk(files, fname, ws) ==> Then(acc, BatchFrom(files, [fname] + names, ws)) == Failure
    ensures DocumentOk(files, fname, ws) ==>
      Then(acc, BatchFrom(files, [fname] + names, ws))
      == Then(acc + RecordOf(files, fname, ws), BatchFrom(files, names, ws))
  {
    assert ([fname] + names)[1..] == names;
  }

  /** A batch whose next document does not open fails. */
  lemma BatchHeadFails(files: map<string, string>, names: seq<string>, ws: seq<Window>)
    requires names != [] && names[0] !in files
    ensures BatchFrom(files, names, ws) == Failure
  {
  }

  /** A successful batch over at least one file has at least one record. */
  lemma BatchNotEmpty(files: map<string, string>, names: seq<string>, ws: seq<Window>)
    requires BatchFrom(files, names, ws).Success? && names != []
    ensures BatchFrom(files, names, ws).fragments != []
  {
    BatchLength(files, names, ws);
  }

  class MetrologyReportParser {
    const iDesc: IDesc

    constructor (iDesc: IDesc)
      ensures this.iDesc == iDesc
    {
      this.iDesc := iDesc;
    }

    /** The fields of one document (`__getTokensAsStringFromString`): each
        token in turn checks the document's lines and, on success, its window
        is sliced out and followed by the separator. The first failing token
        ends the pass with no fragments. */
    method GetTokensAsStringFromString(fname: string, tokens: seq<MetrologyReportToken>, reportStr: string)
      returns (status: OsReturn, outStr: seq<string>)
      modifies set t | t in tokens
      ensures var r := DocumentFields(SplitLines(reportStr), Windows(tokens));
        && (status == Ok <==> r.Success?)
        && (status == Ok ==> outStr == r.fragments)
      ensures status == Error ==> outStr == []
    {
      var strLines := SplitLines(reportStr);
      ghost var ws := Windows(tokens);
      outStr := [];
      var i := 0;
      while i < |tokens|
        invariant 0 <= i <= |tokens|
        invariant forall j :: 0 <= j < i ==> Fits(strLines, ws[j])
        invariant |outStr| == i
        invariant forall j :: 0 <= j < i ==> outStr[j] == Fragment(strLines, ws[j])
      {
        var token := tokens[i];
        var retVal := token.Find(fname, strLines);
        if retVal != Ok {
          DocumentFieldsFail(strLines, ws, i);
          return retVal, [];
        }
        var rowOffset, startOffset := token.rowOffset, token.columnOffset;
        var endOffset := startOffset + token.columnWidth;
        assert Window(rowOffset, startOffset, token.columnWidth) == ws[i];
        var field := strLines[rowOffset][startOffset..endOffset];
        assert field + Separator == Fragment(strLines, ws[i]);
        outStr := outStr + [field + Separator];
        i := i + 1;
      }
      DocumentFieldsAre(strLines, ws, outStr);
      status := Ok;
    }

    /** The whole batch (`getTokensAsString`): reads documents until the input
        descriptor reports the end of its list, appending each document's
        record; a read failure or a failing token returns an error and no
        fragments at all. */
    method GetTokensAsString(host: Host, tokens: seq<MetrologyReportToken>)
      returns (status: OsReturn, retStr: seq<string>)
      requires iDesc.Valid()
      modifies iDesc, set t | t in tokens
      ensures iDesc.Valid()
      ensures iDesc.mode.Std? ==> status == Error
      ensures iDesc.mode.Files? ==>
        var r := BatchFrom(host.files, old(iDesc.Remaining()), Windows(tokens));
        && (status == Ok <==> r.Success?)
        && (status == Ok ==> retStr == r.fragments && iDesc.Remaining() == [])
      ensures status == Error ==> retStr == []
    {
      ghost var ws := Windows(tokens);
      ghost var full := BatchFrom(host.files, iDesc.Remaining(), ws);
      ghost var pending := iDesc.Remaining();
      retStr := [];
      var retVal, fname, reportStr := iDesc.Read(host);
      if retVal == FileError {
        if iDesc.mode.Files? {
          BatchHeadFails(host.files, pending, ws);
        }
        return Error, [];
      }
      assert retVal == IoOk ==> pending == [fname] + iDesc.Remaining();
      while retVal == IoOk
        invariant iDesc.Valid() && iDesc.mode.Files?
        invariant retVal == IoOk ==> fname in host.files && reportStr == host.files[fname]
        invariant retVal == IoOk ==> pending == [fname] + iDesc.Remaining()
        invariant retVal != IoOk ==> pending == iDesc.Remaining()
        invariant retVal == NoMoreFiles ==> pending == []
        invariant retVal == FileError ==> pending != [] && pending[0] !in host.files
        invariant full == Then(retStr, BatchFrom(host.files, pending, ws))
        decreases |iDesc.Remaining()| + (if retVal == IoOk then 1 else 0)
      {
        ghost var rest := iDesc.Remaining();
        var docStatus, outStr := GetTokensAsStringFromString(fname, tokens, reportStr);
        BatchStep(host.files, fname, rest, ws, retStr);
        if docStatus != Ok {
          assert !DocumentOk(host.files, fname, ws);
          return docStatus, [];
        }
        assert RecordOf(host.files, fname, ws) == [fname + Separator] + outStr + [LineSep];
        // the file name goes first, the terminator last
        outStr := [fname + Separator] + outStr;
        outStr := outStr + [LineSep];
        retStr := retStr + outStr;
        pending := rest;
        retVal, fname, reportStr := iDesc.Read(host);
      }
      if retVal == FileError {
        BatchHeadFails(host.files, pending, ws);
        return Error, [];
      }
      assert retStr + [] == retStr;
      return Ok, retStr;
    }
  }
}
