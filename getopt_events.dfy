/** The command line as the option parser hands it to the programs: the
    sequence of options `getopt` returns, each with its argument. The
    scanning of `argv` itself is not modelled; an option character outside
    the option string arrives as whatever `getopt` returns for it. */
module GetoptEvents {

  datatype Option<T> = None | Some(value: T)

  /** One option `getopt` returned, with `optarg` (empty for a flag). */
  datatype Event = Event(opt: char, arg: string)

  /** Option c occurs among the events. */
  predicate Seen(events: seq<Event>, c: char)
  {
    exists k :: 0 <= k < |events| && events[k].opt == c
  }

  /** The argument of the last occurrence of option c, if any. */
  function LastArg(events: seq<Event>, c: char): (r: Option<string>)
    ensures r.Some? <==> Seen(events, c)
    ensures r.Some? ==> exists k :: 0 <= k < |events| && events[k] == Event(c, r.value)
  {
    if events == [] then None
    else if events[|events| - 1].opt == c then Some(events[|events| - 1].arg)
    else
      var r := LastArg(events[..|events| - 1], c);
      assert forall k :: 0 <= k < |events| - 1 ==> events[..|events| - 1][k] == events[k];
      r
  }

  /** The last occurrence wins: a later option overrides an earlier one. */
  lemma {:induction false} LastArgAppend(a: seq<Event>, b: seq<Event>, c: char)
    ensures LastArg(a + b, c) == if Seen(b, c) then LastArg(b, c) else LastArg(a, c)
    decreases |b|
  {
    if b == [] {
      assert a + b == a;
    } else {
      var n := |b|;
      assert (a + b)[..|a + b| - 1] == a + b[..n - 1];
      LastArgAppend(a, b[..n - 1], c);
    }
  }

  /** The index of the first event whose option `keep` rejects, or the
      number of events when it accepts every option. */
  function FirstOutside(events: seq<Event>, keep: char -> bool): (k: nat)
    ensures k <= |events|
    ensures forall j :: 0 <= j < k ==> keep(events[j].opt)
    ensures k < |events| ==> !keep(events[k].opt)
  {
    if events == [] then 0
    else if !keep(events[0].opt) then 0
    else 1 + FirstOutside(events[1..], keep)
  }
}
