/** What one run of the installer does to the outside world, in order: the
    registry pages it requests, the commands it executes and the console
    lines it prints (by kind; colours and wording are not modelled). */
module Trace {

  datatype MsgKind =
    | NoPackageJson          // cli.js:14
    | TypesAlreadyInstalled  // cli.js:43
    | IncludesOwnTypes       // cli.js:54
    | AttemptingInstall      // cli.js:74
    | InstalledSuccessfully  // cli.js:76
    | InstallFailed          // cli.js:79
    | TryingLowercase        // cli.js:83
    | NoTypesFound           // cli.js:91

  datatype Event =
    | Probe(uri: string)                    // the HTTP request of cli.js:66
    | Exec(command: string)                 // the subprocess of cli.js:75
    | Msg(kind: MsgKind, subject: string)   // a console line about `subject`

  /** The requested URIs, in order. */
  function ProbedUris(t: seq<Event>): seq<string>
  {
    if t == [] then []
    else if t[0].Probe? then [t[0].uri] + ProbedUris(t[1..])
    else ProbedUris(t[1..])
  }

  /** The executed commands, in order. */
  function Commands(t: seq<Event>): seq<string>
  {
    if t == [] then []
    else if t[0].Exec? then [t[0].command] + Commands(t[1..])
    else Commands(t[1..])
  }

  /** How many console lines of the given kind were printed. */
  function CountMsg(t: seq<Event>, kind: MsgKind): nat
  {
    if t == [] then 0
    else if t[0].Msg? && t[0].kind == kind then 1 + CountMsg(t[1..], kind)
    else CountMsg(t[1..], kind)
  }

  /** The views of a trace that starts with a given event. */
  lemma ViewsOfCons(e: Event, t: seq<Event>)
    ensures ProbedUris([e] + t) == (if e.Probe? then [e.uri] else []) + ProbedUris(t)
    ensures Commands([e] + t) == (if e.Exec? then [e.command] else []) + Commands(t)
    ensures forall kind :: CountMsg([e] + t, kind) == (if e.Msg? && e.kind == kind then 1 else 0) + CountMsg(t, kind)
  {
    assert ([e] + t)[0] == e && ([e] + t)[1..] == t;
  }

  /** Each view of a trace distributes over concatenation, so each part of a
      run can be reasoned about on its own. */
  lemma {:induction false} ProbedUrisOfConcat(a: seq<Event>, b: seq<Event>)
    ensures ProbedUris(a + b) == ProbedUris(a) + ProbedUris(b)
  {
    if a == [] {
      assert a + b == b;
    } else {
      ProbedUrisOfConcat(a[1..], b);
      assert (a + b)[1..] == a[1..] + b;
      assert (a + b)[0] == a[0];
      if a[0].Probe? {
        assert [a[0].uri] + (ProbedUris(a[1..]) + ProbedUris(b)) == ([a[0].uri] + ProbedUris(a[1..])) + ProbedUris(b);
      }
    }
  }

  lemma {:induction false} CommandsOfConcat(a: seq<Event>, b: seq<Event>)
    ensures Commands(a + b) == Commands(a) + Commands(b)
  {
    if a == [] {
      assert a + b == b;
    } else {
      CommandsOfConcat(a[1..], b);
      assert (a + b)[1..] == a[1..] + b;
      assert (a + b)[0] == a[0];
      if a[0].Exec? {
        assert [a[0].command] + (Commands(a[1..]) + Commands(b)) == ([a[0].command] + Commands(a[1..])) + Commands(b);
      }
    }
  }

  lemma {:induction false} CountMsgOfConcat(a: seq<Event>, b: seq<Event>, kind: MsgKind)
    ensures CountMsg(a + b, kind) == CountMsg(a, kind) + CountMsg(b, kind)
  {
    if a == [] {
      assert a + b == b;
    } else {
      CountMsgOfConcat(a[1..], b, kind);
      assert (a + b)[0] == a[0] && (a + b)[1..] == a[1..] + b;
    }
  }

  /** The traces of consecutive steps, one after the other. */
  function Flatten(parts: seq<seq<Event>>): seq<Event> {
    if parts == [] then [] else parts[0] + Flatten(parts[1..])
  }

  lemma {:induction false} FlattenOfConcat(p: seq<seq<Event>>, q: seq<seq<Event>>)
    ensures Flatten(p + q) == Flatten(p) + Flatten(q)
  {
    if p == [] {
      assert p + q == q;
    } else {
      FlattenOfConcat(p[1..], q);
      assert (p + q)[0] == p[0] && (p + q)[1..] == p[1..] + q;
      assert p[0] + (Flatten(p[1..]) + Flatten(q)) == (p[0] + Flatten(p[1..])) + Flatten(q);
    }
  }
}
