/** The diagnostic accumulator of the language service: an append-only list
    of `{severity, range, message}` records whose ranges are converted from
    offsets through the document's `positionAt`. */
module ErrorHandling {

  /** A zero-based line and character, as the language server protocol
      counts them. */
  datatype Position = Position(line: nat, character: nat)

  datatype Range = Range(start: Position, end: Position)

  /** The text document the handler reports on. Only its offset-to-position
      conversion is used, and it is left uninterpreted: any function will do. */
  datatype TextDocument = TextDocument(positionAt: int -> Position)

  /** The parser node a diagnostic is reported for: its start and end offsets. */
  datatype ErrorNode = ErrorNode(startPosition: int, endPosition: int)

  /** One stored record. `severity` holds whatever the caller passed as the
      error type. */
  datatype ErrorResult = ErrorResult(severity: int, range: Range, message: string)

  /** The arguments of one `addErrorResult` call. */
  datatype Report = Report(node: ErrorNode, errorMessage: string, errorType: int)

  /** The record one call appends. */
  function RecordOf(doc: TextDocument, report: Report): (r: ErrorResult)
    ensures r.severity == report.errorType
    ensures r.message == report.errorMessage
    ensures r.range.start == doc.positionAt(report.node.startPosition)
    ensures r.range.end == doc.positionAt(report.node.endPosition)
  {
    ErrorResult(
      report.errorType,
      Range(doc.positionAt(report.node.startPosition), doc.positionAt(report.node.endPosition)),
      report.errorMessage)
  }

  /** The list a fresh handler holds after the given calls, in call order. */
  function Replay(doc: TextDocument, reports: seq<Report>): (r: seq<ErrorResult>)
  {
    if reports == [] then []
    else Replay(doc, reports[..|reports| - 1]) + [RecordOf(doc, reports[|reports| - 1])]
  }

  /** One record per call, the i-th made by the i-th call. */
  lemma {:induction false} ReplayRecords(doc: TextDocument, reports: seq<Report>)
    ensures |Replay(doc, reports)| == |reports|
    ensures forall i :: 0 <= i < |reports| ==> Replay(doc, reports)[i] == RecordOf(doc, reports[i])
  {
    if reports != [] {
      var init := reports[..|reports| - 1];
      ReplayRecords(doc, init);
      forall i | 0 <= i < |reports|
        ensures Replay(doc, reports)[i] == RecordOf(doc, reports[i])
      {
        if i < |init| {
          assert reports[i] == init[i];
        }
      }
    }
  }

  /** Later calls never change the records earlier calls made. */
  lemma {:induction false} ReplayPrefix(doc: TextDocument, reports: seq<Report>, more: seq<Report>)
    ensures Replay(doc, reports) <= Replay(doc, reports + more)
  {
    ReplayRecords(doc, reports);
    ReplayRecords(doc, reports + more);
    var a := Replay(doc, reports);
    var b := Replay(doc, reports + more);
    forall i | 0 <= i < |a| ensures a[i] == b[i] {
      assert (reports + more)[i] == reports[i];
    }
  }

  class ErrorHandler {
    var errorResultsList: seq<ErrorResult>
    /** Set once by the constructor. */
    const textDocument: TextDocument

    constructor (textDocument: TextDocument)
      ensures errorResultsList == []
      ensures this.textDocument == textDocument
    {
      errorResultsList := [];
      this.textDocument := textDocument;
    }

    /** Appends the record for `errorNode`; earlier records stay as they are. */
    method AddErrorResult(errorNode: ErrorNode, errorMessage: string, errorType: int)
      modifies this
      ensures errorResultsList == old(errorResultsList) + [RecordOf(textDocument, Report(errorNode, errorMessage, errorType))]
    {
      errorResultsList := errorResultsList + [ErrorResult(
        errorType,
        Range(textDocument.positionAt(errorNode.startPosition), textDocument.positionAt(errorNode.endPosition)),
        errorMessage)];
    }

    method GetErrorResultsList() returns (r: seq<ErrorResult>)
      ensures r == errorResultsList
    {
      r := errorResultsList;
    }
  }

  /** A client of the handler: a fresh handler fed the calls in order hands
      back one record per call, the i-th carrying the i-th call's error type
      as its severity, its message and the positions of its node. */
  method CollectErrors(doc: TextDocument, reports: seq<Report>) returns (r: seq<ErrorResult>)
    ensures r == Replay(doc, reports)
    ensures |r| == |reports|
    ensures forall i :: 0 <= i < |reports| ==>
      && r[i].severity == reports[i].errorType
      && r[i].message == reports[i].errorMessage
      && r[i].range == Range(doc.positionAt(reports[i].node.startPosition),
                             doc.positionAt(reports[i].node.endPosition))
  {
    var handler := new ErrorHandler(doc);
    var k := 0;
    while k < |reports|
      invariant 0 <= k <= |reports|
      invariant handler.textDocument == doc
      invariant handler.errorResultsList == Replay(doc, reports[..k])
    {
      var report := reports[k];
      handler.AddErrorResult(report.node, report.errorMessage, report.errorType);
      assert reports[..k + 1][..k] == reports[..k];
      k := k + 1;
    }
    assert reports[..k] == reports;
    r := handler.GetErrorResultsList();
    ReplayRecords(doc, reports);
  }
}
