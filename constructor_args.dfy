/** The option validation of the reconstruction program: options n, d and
    o carry the camera count, the data path and the output file and are
    required; i, s and m are flags; h and any unknown option stop the parse
    with the usage text. */
module ConstructorOptions {
  import opened GetoptEvents

  /** The options after which the parse goes on. */
  predicate Continuing(c: char)
  {
    c == 'n' || c == 'd' || c == 'o' || c == 'i' || c == 's' || c == 'm'
  }

  /** A C++ `int` converted to `unsigned int`: reduction modulo 2^32. */
  function ToUnsigned(x: int): (u: nat)
    ensures u < 0x1_0000_0000
    ensures 0 <= x < 0x1_0000_0000 ==> u == x
  {
    x % 0x1_0000_0000
  }

  datatype Settings = Settings(
    numCameras: nat,
    dataPath: string,
    compressedFileName: string,
    useCalibrationImages: bool,
    useMatteStill: bool,
    useMatteVideo: bool)

  /** What the parse shows before it returns false: nothing, the usage
      text alone for h, or the usage text after naming the unknown option or
      the first missing required one. */
  datatype Message = NoMessage | HelpText | UnknownOption(opt: char) | MissingOption(opt: char)

  /** The settings after the options `run`, where `atoi` converts the
      camera count: each argument option sets its field to the argument of
      its last occurrence, each flag turns its field on, and an option that
      does not occur leaves its field as it was. */
  function Applied(s: Settings, run: seq<Event>, atoi: string -> int): (r: Settings)
    ensures !Seen(run, 'n') ==> r.numCameras == s.numCameras
    ensures !Seen(run, 'd') ==> r.dataPath == s.dataPath
    ensures !Seen(run, 'o') ==> r.compressedFileName == s.compressedFileName
    ensures r.useCalibrationImages == (s.useCalibrationImages || Seen(run, 'i'))
    ensures r.useMatteStill == (s.useMatteStill || Seen(run, 's'))
    ensures r.useMatteVideo == (s.useMatteVideo || Seen(run, 'm'))
  {
    Settings(
      match LastArg(run, 'n') case Some(a) => ToUnsigned(atoi(a)) case None => s.numCameras,
      match LastArg(run, 'd') case Some(a) => a case None => s.dataPath,
      match LastArg(run, 'o') case Some(a) => a case None => s.compressedFileName,
      s.useCalibrationImages || Seen(run, 'i'),
      s.useMatteStill || Seen(run, 's'),
      s.useMatteVideo || Seen(run, 'm'))
  }

  /** Applying two runs of options one after the other is applying them
      together: the later occurrence of an option wins. */
  lemma AppliedAppend(s: Settings, a: seq<Event>, b: seq<Event>, atoi: string -> int)
    ensures Applied(Applied(s, a, atoi), b, atoi) == Applied(s, a + b, atoi)
  {
    LastArgAppend(a, b, 'n');
    LastArgAppend(a, b, 'd');
    LastArgAppend(a, b, 'o');
    SeenAppend(a, b, 'i');
    SeenAppend(a, b, 's');
    SeenAppend(a, b, 'm');
  }

  lemma SeenAppend(a: seq<Event>, b: seq<Event>, c: char)
    ensures Seen(a + b, c) <==> Seen(a, c) || Seen(b, c)
  {
    if Seen(a, c) {
      var k :| 0 <= k < |a| && a[k].opt == c;
      assert (a + b)[k] == a[k];
    }
    if Seen(b, c) {
      var k :| 0 <= k < |b| && b[k].opt == c;
      assert (a + b)[|a| + k] == b[k];
    }
    if Seen(a + b, c) {
      var k :| 0 <= k < |a + b| && (a + b)[k].opt == c;
      if k < |a| {
        assert a[k] == (a + b)[k];
      } else {
        assert b[k - |a|] == (a + b)[k];
      }
    }
  }

  /** The outcome of the parse: the missing required options are reported
      in the order n, d, o, and only the first of them. */
  function Verdict(events: seq<Event>): (m: Message)
    ensures m == NoMessage <==>
      (forall k :: 0 <= k < |events| ==> Continuing(events[k].opt))
      && Seen(events, 'n') && Seen(events, 'd') && Seen(events, 'o')
  {
    var k := FirstOutside(events, Continuing);
    if k < |events| then
      if events[k].opt == 'h' then HelpText else UnknownOption(events[k].opt)
    else if !Seen(events, 'n') then MissingOption('n')
    else if !Seen(events, 'd') then MissingOption('d')
    else if !Seen(events, 'o') then MissingOption('o')
    else NoMessage
  }

  class Constructor {
    var settings: Settings

    /** The settings' flags start off; the other fields have no defined
        value in the source and start as zero and empty strings here. */
    constructor()
      ensures !settings.useCalibrationImages && !settings.useMatteStill && !settings.useMatteVideo
      ensures settings.numCameras == 0 && settings.dataPath == [] && settings.compressedFileName == []
    {
      settings := Settings(0, [], [], false, false, false);
    }

    /** Reads the options in order, recording each into the settings, and
        stops at h or at an unknown option; then requires n, d and o. The
        result is true exactly when nothing was shown. */
    method ParseArguments(events: seq<Event>, atoi: string -> int) returns (ok: bool, shown: Message)
      modifies this
      ensures var stop := FirstOutside(events, Continuing);
        settings == Applied(old(settings), events[..stop], atoi)
      ensures shown == Verdict(events)
      ensures ok <==> shown == NoMessage
    {
      var hasNumCameras, hasDataPath, hasCompressedFileName := false, false, false;
      ghost var s0 := settings;
      var k := 0;
      while k < |events|
        invariant k <= |events|
        invariant forall j :: 0 <= j < k ==> Continuing(events[j].opt)
        invariant settings == Applied(s0, events[..k], atoi)
        invariant hasNumCameras == Seen(events[..k], 'n')
        invariant hasDataPath == Seen(events[..k], 'd')
        invariant hasCompressedFileName == Seen(events[..k], 'o')
      {
        var e := events[k];
        ghost var before := settings;
        if e.opt == 'n' {
          hasNumCameras := true;
          settings := settings.(numCameras := ToUnsigned(atoi(e.arg)));
        } else if e.opt == 'd' {
          hasDataPath := true;
          settings := settings.(dataPath := e.arg);
        } else if e.opt == 'h' {
          StopsAt(events, k);
          return false, HelpText;
        } else if e.opt == 'o' {
          hasCompressedFileName := true;
          settings := settings.(compressedFileName := e.arg);
        } else if e.opt == 'i' {
          settings := settings.(useCalibrationImages := true);
        } else if e.opt == 's' {
          settings := settings.(useMatteStill := true);
        } else if e.opt == 'm' {
          settings := settings.(useMatteVideo := true);
        } else {
          StopsAt(events, k);
          return false, UnknownOption(e.opt);
        }
        assert Continuing(events[k].opt);
        OneMore(s0, before, events, k, atoi);
        SeenStep(events, k, 'n');
        SeenStep(events, k, 'd');
        SeenStep(events, k, 'o');
        k := k + 1;
      }
      RunsToEnd(events);
      assert events[..k] == events;
      if !hasNumCameras {
        return false, MissingOption('n');
      }
      if !hasDataPath {
        return false, MissingOption('d');
      }
      if !hasCompressedFileName {
        return false, MissingOption('o');
      }
      return true, NoMessage;
    }
  }

  /** The parse stops at the first option that is not a continuing one. */
  lemma StopsAt(events: seq<Event>, k: nat)
    requires k < |events| && !Continuing(events[k].opt)
    requires forall j :: 0 <= j < k ==> Continuing(events[j].opt)
    ensures FirstOutside(events, Continuing) == k
  {
  }

  lemma RunsToEnd(events: seq<Event>)
    requires forall j :: 0 <= j < |events| ==> Continuing(events[j].opt)
    ensures FirstOutside(events, Continuing) == |events|
  {
  }

  /** The effect of one option on the settings, case by case. */
  lemma AppliedOne(s: Settings, e: Event, atoi: string -> int)
    ensures Applied(s, [e], atoi) ==
      if e.opt == 'n' then s.(numCameras := ToUnsigned(atoi(e.arg)))
      else if e.opt == 'd' then s.(dataPath := e.arg)
      else if e.opt == 'o' then s.(compressedFileName := e.arg)
      else if e.opt == 'i' then s.(useCalibrationImages := true)
      else if e.opt == 's' then s.(useMatteStill := true)
      else if e.opt == 'm' then s.(useMatteVideo := true)
      else s
  {
    var r := [e];
    assert r[..0] == [];
    forall c ensures Seen(r, c) <==> e.opt == c {
      assert r[0] == e;
    }
  }

  /** One more recorded option extends the run the settings reflect. */
  lemma OneMore(s0: Settings, before: Settings, events: seq<Event>, k: nat, atoi: string -> int)
    requires k < |events| && before == Applied(s0, events[..k], atoi)
    ensures Applied(s0, events[..k + 1], atoi) ==
      var e, s := events[k], before;
      if e.opt == 'n' then s.(numCameras := ToUnsigned(atoi(e.arg)))
      else if e.opt == 'd' then s.(dataPath := e.arg)
      else if e.opt == 'o' then s.(compressedFileName := e.arg)
      else if e.opt == 'i' then s.(useCalibrationImages := true)
      else if e.opt == 's' then s.(useMatteStill := true)
      else if e.opt == 'm' then s.(useMatteVideo := true)
      else s
  {
    AppliedAppend(s0, events[..k], [events[k]], atoi);
    AppliedOne(before, events[k], atoi);
    assert events[..k] + [events[k]] == events[..k + 1];
  }

  lemma SeenStep(events: seq<Event>, k: nat, c: char)
    requires k < |events|
    ensures Seen(events[..k + 1], c) <==> Seen(events[..k], c) || events[k].opt == c
  {
    assert events[..k + 1] == events[..k] + [events[k]];
    SeenAppend(events[..k], [events[k]], c);
    assert Seen([events[k]], c) <==> events[k].opt == c by {
      assert [events[k]][0] == events[k];
    }
  }
}
