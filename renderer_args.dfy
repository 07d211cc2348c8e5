/** The option validation of the viewer: option i names the compressed
    octree to show and is required; h and every other option end the parse
    with the usage text and the graceful exception, which makes the program
    exit successfully without showing anything. */
module RendererOptions {
  import opened GetoptEvents

  /** What the parse shows before it raises: the usage text alone, or the
      usage text after saying that the input file is missing. */
  datatype Message = NoMessage | Usage | MissingInputAndUsage

  predicate IsInput(c: char)
  {
    c == 'i'
  }

  /** The outcome of the parse: it returns normally, with nothing shown,
      exactly when every option is i and there is at least one. */
  function Verdict(events: seq<Event>): (m: Message)
    ensures m == NoMessage <==> (forall k :: 0 <= k < |events| ==> events[k].opt == 'i') && |events| > 0
  {
    var k := FirstOutside(events, IsInput);
    if k < |events| then Usage
    else if !Seen(events, 'i') then MissingInputAndUsage
    else NoMessage
  }

  class ConstructorRenderer {
    /** The input file of the viewer's settings. */
    var inputFile: string

    /** Reads the options in order, recording each i, and stops at the
        first other option; then requires an i. `raised` is the graceful
        exception. */
    method ParseArguments(events: seq<Event>) returns (raised: bool, shown: Message)
      modifies this
      ensures var stop := FirstOutside(events, IsInput);
        inputFile == match LastArg(events[..stop], 'i') case Some(a) => a case None => old(inputFile)
      ensures shown == Verdict(events)
      ensures raised <==> shown != NoMessage
    {
      var hasInputFile := false;
      var k := 0;
      while k < |events|
        invariant k <= |events|
        invariant forall j :: 0 <= j < k ==> events[j].opt == 'i'
        invariant hasInputFile <==> k > 0
        invariant inputFile == if k > 0 then events[k - 1].arg else old(inputFile)
      {
        var e := events[k];
        if e.opt == 'i' {
          hasInputFile := true;
          inputFile := e.arg;
        } else {
          // `case 'h':` and `default:` both jump to the usage label.
          LastOfInputs(events, k);
          return true, Usage;
        }
        k := k + 1;
      }
      LastOfInputs(events, k);
      if !hasInputFile {
        return true, MissingInputAndUsage;
      }
      return false, NoMessage;
    }
  }

  /** Before the parse stops at k, the last i seen is the one just before k. */
  lemma LastOfInputs(events: seq<Event>, k: nat)
    requires k <= |events| && forall j :: 0 <= j < k ==> events[j].opt == 'i'
    requires k < |events| ==> events[k].opt != 'i'
    ensures FirstOutside(events, IsInput) == k
    ensures LastArg(events[..k], 'i') == if k > 0 then Some(events[k - 1].arg) else None
    ensures k == |events| ==> (Seen(events, 'i') <==> k > 0)
  {
    if k == |events| {
      assert events[..k] == events;
      if k > 0 {
        assert events[k - 1].opt == 'i';
      }
    }
    if k > 0 {
      assert events[..k][k - 1] == events[k - 1];
    }
  }
}
