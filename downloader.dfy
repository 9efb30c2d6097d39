/**
 * The control flow of `process_user` and `main` as traces of observable
 * events. What the network does (the profile fetch, the image download) is
 * an input: one `Response` per line of the input file.
 */
module Downloader {
  import opened Wrappers
  import opened Text
  import opened Avatar

  datatype Event =
    | UsageShown                                        // no input file argument
    | TokenMissing                                      // no bot token configured
    | OutputDirReady                                    // `os.makedirs(OUTPUT_DIR, exist_ok=True)`
    | Skipped(id: string)                               // the line is not a user id
    | FetchRequested(url: string, authorization: string) // GET of the user profile
    | FetchFailed(id: string)                           // the profile fetch raised
    | Downloading(url: string, path: string)            // announced and started the image download
    | Saved(path: string)                               // the download wrote the file
    | DownloadFailed                                    // the download raised
    | Slept                                             // `time.sleep(delay)`
    | Crashed                                           // an uncaught exception ended the run

  /** What the outside world answers for one line: the fetched profile, if any, and whether the image download succeeded. */
  datatype Response = Response(profile: Option<User>, downloaded: bool)

  /** `user_id.strip()` is non-empty and all digits (`IsDigits` is false on ""). */
  predicate IsUserId(id: string)
  {
    IsDigits(id)
  }

  /** The event that opens the processing of a line. */
  predicate IsStart(e: Event)
  {
    e.Skipped? || e.FetchRequested?
  }

  /** The profile request `get_user_object` sends for a user id. */
  function FetchOf(id: string, token: string): Event
  {
    FetchRequested(ApiBase + "/users/" + id, "Bot " + token)
  }

  /** The first event of a line: a skip, or the profile request. */
  function LineStart(line: string, token: string): (e: Event)
    ensures IsStart(e)
  {
    var id := Strip(line);
    if !IsUserId(id) then Skipped(id) else FetchOf(id, token)
  }

  /** How far `process_user` gets with one line. */
  datatype LineOutcome =
    | NotUserId(id: string)                         // skipped
    | FetchError(id: string)                        // the fetch raised
    | MissingId(id: string)                         // `user_obj["id"]` raised `KeyError`
    | Resolved(id: string, url: string, path: string) // avatar URL and output path computed

  /** The decisions `process_user` takes for one line, given the fetch's answer. */
  function Classify(line: string, resp: Response): LineOutcome
  {
    var id := Strip(line);
    if !IsUserId(id) then NotUserId(id)
    else
      match resp.profile
      case None => FetchError(id)
      case Some(user) =>
        match AvatarUrl(user)
        case None => MissingId(id)
        case Some(url) => Resolved(id, url, OutPath(FileName(user.username, id, Extension(url))))
  }

  /** The events of a line that got as far as `o`. */
  function Trace(o: LineOutcome, token: string, downloaded: bool): seq<Event>
  {
    match o
    case NotUserId(id) => [Skipped(id)]
    case FetchError(id) => [FetchOf(id, token), FetchFailed(id)]
    case MissingId(id) => [FetchOf(id, token), Crashed]
    case Resolved(id, url, path) =>
      [FetchOf(id, token), Downloading(url, path), if downloaded then Saved(path) else DownloadFailed, Slept]
  }

  /** The events `process_user(line)` produces. */
  function LineEvents(line: string, token: string, resp: Response): seq<Event>
  {
    Trace(Classify(line, resp), token, resp.downloaded)
  }

  /** `process_user`: the same steps, with its early returns. */
  method ProcessUser(line: string, token: string, resp: Response) returns (events: seq<Event>)
    ensures events == LineEvents(line, token, resp)
  {
    var id := Strip(line);
    if |id| == 0 || !IsDigits(id) {
      events := [Skipped(id)];
      return;
    }
    events := [FetchOf(id, token)];
    if resp.profile.None? {
      events := events + [FetchFailed(id)];
      return;
    }
    var user := resp.profile.value;
    var resolved := AvatarUrl(user);
    if resolved.None? {
      events := events + [Crashed];
      return;
    }
    var url := resolved.value;
    var ext := Extension(url);
    var name := FileName(user.username, id, ext);
    var path := OutPath(name);
    events := events + [Downloading(url, path)];
    if resp.downloaded {
      events := events + [Saved(path)];
    } else {
      events := events + [DownloadFailed];
    }
    events := events + [Slept];
  }

  /** The traces of the lines, one per line, in file order. */
  function LineTraces(lines: seq<string>, token: string, resps: seq<Response>): (r: seq<seq<Event>>)
    requires |resps| == |lines|
    ensures |r| == |lines|
  {
    if |lines| == 0 then [] else [LineEvents(lines[0], token, resps[0])] + LineTraces(lines[1..], token, resps[1..])
  }

  lemma {:induction false} LineTracesAt(lines: seq<string>, token: string, resps: seq<Response>, i: nat)
    requires |resps| == |lines| && i < |lines|
    ensures LineTraces(lines, token, resps)[i] == LineEvents(lines[i], token, resps[i])
  {
    if i > 0 {
      LineTracesAt(lines[1..], token, resps[1..], i - 1);
    }
  }

  /** Line traces run one after another until one of them crashes. */
  function Concat(traces: seq<seq<Event>>): seq<Event>
  {
    if |traces| == 0 then []
    else if Crashed in traces[0] then traces[0]
    else traces[0] + Concat(traces[1..])
  }

  /** One step of the line loop: appending trace `i` to what the first `i` traces produced. */
  lemma ConcatAdvance(traces: seq<seq<Event>>, i: nat, done: seq<Event>)
    requires i < |traces|
    requires Crashed !in done && done + Concat(traces[i..]) == Concat(traces)
    ensures Crashed in traces[i] ==> done + traces[i] == Concat(traces)
    ensures Crashed !in traces[i] ==>
      && Crashed !in done + traces[i]
      && (done + traces[i]) + Concat(traces[i + 1..]) == Concat(traces)
  {
    var rest := traces[i..];
    assert rest[0] == traces[i] && rest[1..] == traces[i + 1..];
    assert Concat(rest) == if Crashed in rest[0] then rest[0] else rest[0] + Concat(rest[1..]);
    if Crashed !in traces[i] {
      var tail := Concat(traces[i + 1..]);
      assert done + (traces[i] + tail) == (done + traces[i]) + tail;
    }
  }

  /** The events of the line loop: every line in order, until one crashes. */
  function RunEvents(lines: seq<string>, token: string, resps: seq<Response>): seq<Event>
    requires |resps| == |lines|
  {
    Concat(LineTraces(lines, token, resps))
  }

  /** The run is the first line's events, then (unless that line crashed) the run of the rest. */
  lemma RunEventsCons(lines: seq<string>, token: string, resps: seq<Response>)
    requires |resps| == |lines| && |lines| > 0
    ensures var first := LineEvents(lines[0], token, resps[0]);
      RunEvents(lines, token, resps)
        == if Crashed in first then first else first + RunEvents(lines[1..], token, resps[1..])
  {
  }

  /** `BOT_TOKEN` is truthy: present and non-empty. */
  predicate HasToken(token: Option<string>)
  {
    token.Some? && |token.value| > 0
  }

  /**
   * The `for line in f` loop of `main`: `process_user` on every line in
   * order; an uncaught exception from one line ends the loop.
   */
  method ProcessLines(lines: seq<string>, token: string, resps: seq<Response>)
    returns (crashed: bool, events: seq<Event>)
    requires |resps| == |lines|
    ensures events == RunEvents(lines, token, resps)
    ensures crashed == (Crashed in events)
  {
    ghost var traces := LineTraces(lines, token, resps);
    events := [];
    var i := 0;
    while i < |lines|
      invariant 0 <= i <= |lines|
      invariant Crashed !in events
      invariant events + Concat(traces[i..]) == Concat(traces)
    {
      var lineEvents := ProcessUser(lines[i], token, resps[i]);
      LineTracesAt(lines, token, resps, i);
      ConcatAdvance(traces, i, events);
      events := events + lineEvents;
      if Crashed in lineEvents {
        return true, events;
      }
      i := i + 1;
    }
    assert traces[i..] == [];
    crashed := false;
  }

  /**
   * `main`: the argument and token checks, then `process_user` once per
   * line. The exit code is 1 for a failed check or an uncaught exception,
   * 0 otherwise.
   */
  method Run(argv: seq<string>, token: Option<string>, lines: seq<string>, resps: seq<Response>)
    returns (exitCode: int, events: seq<Event>)
    requires |resps| == |lines|
    ensures |argv| < 2 ==> exitCode == 1 && events == [UsageShown]
    ensures |argv| >= 2 && !HasToken(token) ==> exitCode == 1 && events == [TokenMissing]
    ensures |argv| >= 2 && HasToken(token) ==>
      && events == [OutputDirReady] + RunEvents(lines, token.value, resps)
      && exitCode == (if Crashed in events then 1 else 0)
  {
    if |argv| < 2 {
      return 1, [UsageShown];
    }
    if !HasToken(token) {
      return 1, [TokenMissing];
    }
    var crashed, lineEvents := ProcessLines(lines, token.value, resps);
    events := [OutputDirReady] + lineEvents;
    exitCode := if crashed then 1 else 0;
  }

  // Properties of one line

  /** A line is skipped, with nothing fetched, downloaded or slept, exactly when it is not a user id. */
  lemma SkipIffNotUserId(line: string, token: string, resp: Response)
    ensures LineEvents(line, token, resp) == [Skipped(Strip(line))] <==> !IsUserId(Strip(line))
  {
  }

  /** A failed fetch ends the line: no download and no sleep. */
  lemma FetchFailureStops(line: string, token: string, resp: Response)
    requires IsUserId(Strip(line)) && resp.profile.None?
    ensures LineEvents(line, token, resp) == [FetchOf(Strip(line), token), FetchFailed(Strip(line))]
  {
  }

  /**
   * After a successful fetch of a profile with an id, exactly one download
   * is attempted and the line ends with one sleep, whether or not the
   * download succeeded.
   */
  lemma DownloadThenSleep(line: string, token: string, resp: Response)
    requires IsUserId(Strip(line)) && resp.profile.Some? && !resp.profile.value.id.Absent?
    ensures var e := LineEvents(line, token, resp);
      && |e| == 4 && e[0] == FetchOf(Strip(line), token)
      && e[1].Downloading? && e[1].url == AvatarUrl(resp.profile.value).value
      && (e[2].Saved? <==> resp.downloaded) && (e[2].DownloadFailed? <==> !resp.downloaded)
      && (resp.downloaded ==> e[2] == Saved(e[1].path))
      && e[3] == Slept
  {
  }

  /** The sleep asymmetry: a line sleeps exactly when its profile was fetched and resolved. */
  lemma SleepIffResolved(line: string, token: string, resp: Response)
    ensures Slept in LineEvents(line, token, resp)
      <==> IsUserId(Strip(line)) && resp.profile.Some? && !resp.profile.value.id.Absent?
  {
  }

  /**
   * For a profile whose id and avatar hash hold no `?`, the file written is
   * `avatars/{username}_{id}.{ext}` with the extension the profile calls for.
   */
  lemma DownloadTarget(line: string, token: string, resp: Response)
    requires IsUserId(Strip(line)) && resp.profile.Some?
    requires var u := resp.profile.value;
      !u.id.Absent? && (u.id.Text? ==> '?' !in u.id.s) && (u.avatar.Text? ==> '?' !in u.avatar.s)
    ensures var u := resp.profile.value;
      LineEvents(line, token, resp)[1]
        == Downloading(AvatarUrl(u).value, OutPath(FileName(u.username, Strip(line), ExpectedExtension(u))))
  {
    ExtensionOfAvatarUrl(resp.profile.value);
  }

  /** Every line's events open with its start event, hold no other, and a crash can only come last. */
  lemma LineShape(line: string, token: string, resp: Response)
    ensures var e := LineEvents(line, token, resp);
      && |e| > 0 && e[0] == LineStart(line, token)
      && (forall k :: 0 < k < |e| ==> !IsStart(e[k]))
      && (Crashed in e ==> e[|e| - 1] == Crashed && Crashed !in e[..|e| - 1])
  {
    TraceShape(Classify(line, resp), token, resp.downloaded);
  }

  lemma TraceShape(o: LineOutcome, token: string, downloaded: bool)
    ensures var e := Trace(o, token, downloaded);
      && |e| > 0 && e[0] == (if o.NotUserId? then Skipped(o.id) else FetchOf(o.id, token))
      && (forall k :: 0 < k < |e| ==> !IsStart(e[k]))
      && (Crashed in e ==> o.MissingId? && e[|e| - 1] == Crashed && Crashed !in e[..|e| - 1])
  {
  }

  // Properties of the line loop

  /** The start events of a trace, in order. */
  function Starts(events: seq<Event>): (r: seq<Event>)
    ensures |r| <= |events|
    ensures forall k :: 0 <= k < |r| ==> IsStart(r[k])
  {
    if |events| == 0 then []
    else (if IsStart(events[0]) then [events[0]] else []) + Starts(events[1..])
  }

  /** The start events the lines call for, in file order. */
  function LineStarts(lines: seq<string>, token: string): (r: seq<Event>)
    ensures |r| == |lines|
  {
    if |lines| == 0 then [] else [LineStart(lines[0], token)] + LineStarts(lines[1..], token)
  }

  lemma {:induction false} StartsAppend(a: seq<Event>, b: seq<Event>)
    ensures Starts(a + b) == Starts(a) + Starts(b)
  {
    if |a| > 0 {
      assert (a + b)[0] == a[0] && (a + b)[1..] == a[1..] + b;
      StartsAppend(a[1..], b);
      assert Starts(a) == (if IsStart(a[0]) then [a[0]] else []) + Starts(a[1..]);
    } else {
      assert a + b == b;
    }
  }

  lemma {:induction false} StartsOfLine(line: string, token: string, resp: Response)
    ensures Starts(LineEvents(line, token, resp)) == [LineStart(line, token)]
  {
    var e := LineEvents(line, token, resp);
    LineShape(line, token, resp);
    assert e == [e[0]] + e[1..];
    StartsAppend([e[0]], e[1..]);
    NoStarts(e[1..]);
  }

  lemma {:induction false} NoStarts(events: seq<Event>)
    requires forall k :: 0 <= k < |events| ==> !IsStart(events[k])
    ensures Starts(events) == []
  {
    if |events| > 0 {
      NoStarts(events[1..]);
    }
  }

  /**
   * `process_user` runs once per line, in file order: the trace's start
   * events are those of a prefix of the lines, and of all of them unless a
   * line crashed.
   */
  lemma {:induction false} OncePerLineInOrder(lines: seq<string>, token: string, resps: seq<Response>)
    requires |resps| == |lines|
    ensures var r := RunEvents(lines, token, resps);
      && Starts(r) <= LineStarts(lines, token)
      && (Crashed !in r ==> Starts(r) == LineStarts(lines, token))
  {
    if |lines| > 0 {
      var first := LineEvents(lines[0], token, resps[0]);
      RunEventsCons(lines, token, resps);
      StartsOfLine(lines[0], token, resps[0]);
      if Crashed !in first {
        var rest := RunEvents(lines[1..], token, resps[1..]);
        OncePerLineInOrder(lines[1..], token, resps[1..]);
        StartsAppend(first, rest);
      }
    }
  }

  /** An uncaught exception ends the run: nothing follows a crash. */
  lemma {:induction false} CrashEndsRun(lines: seq<string>, token: string, resps: seq<Response>)
    requires |resps| == |lines|
    ensures var r := RunEvents(lines, token, resps);
      Crashed in r ==> r[|r| - 1] == Crashed && Crashed !in r[..|r| - 1]
  {
    if |lines| > 0 {
      var first := LineEvents(lines[0], token, resps[0]);
      RunEventsCons(lines, token, resps);
      LineShape(lines[0], token, resps[0]);
      if Crashed !in first {
        var rest := RunEvents(lines[1..], token, resps[1..]);
        CrashEndsRun(lines[1..], token, resps[1..]);
        if Crashed in rest {
          assert (first + rest)[..|first + rest| - 1] == first + rest[..|rest| - 1];
        }
      }
    }
  }

  /**
   * A skipped line and a failed fetch are followed directly by the next
   * line's start (never by a sleep), and every sleep directly follows a
   * download's outcome.
   */
  ghost predicate SleepsWellPlaced(r: seq<Event>)
  {
    && (forall k :: 0 <= k < |r| - 1 && (r[k].Skipped? || r[k].FetchFailed?) ==> IsStart(r[k + 1]))
    && (forall k :: 0 < k < |r| && r[k] == Slept ==> r[k - 1].Saved? || r[k - 1].DownloadFailed?)
  }

  lemma TraceSleepsWellPlaced(o: LineOutcome, token: string, downloaded: bool)
    ensures SleepsWellPlaced(Trace(o, token, downloaded))
  {
  }

  lemma SleepsWellPlacedAppend(a: seq<Event>, b: seq<Event>)
    requires SleepsWellPlaced(a) && SleepsWellPlaced(b)
    requires |b| > 0 ==> IsStart(b[0])
    ensures SleepsWellPlaced(a + b)
  {
    var r := a + b;
    forall k | 0 <= k < |r| - 1 && (r[k].Skipped? || r[k].FetchFailed?)
      ensures IsStart(r[k + 1])
    {
      if k >= |a| {
        assert r[k] == b[k - |a|] && r[k + 1] == b[k + 1 - |a|];
      }
    }
    forall k | 0 < k < |r| && r[k] == Slept
      ensures r[k - 1].Saved? || r[k - 1].DownloadFailed?
    {
      if k > |a| {
        assert r[k] == b[k - |a|] && r[k - 1] == b[k - 1 - |a|];
      }
    }
  }

  /** A non-empty run opens with the first line's start event. */
  lemma RunOpensWithStart(lines: seq<string>, token: string, resps: seq<Response>)
    requires |resps| == |lines| && |lines| > 0
    ensures var r := RunEvents(lines, token, resps); |r| > 0 && r[0] == LineStart(lines[0], token)
  {
    RunEventsCons(lines, token, resps);
    LineShape(lines[0], token, resps[0]);
  }

  /**
   * Across the whole run, no sleep follows a skipped line or a failed fetch,
   * and every sleep follows a download's outcome.
   */
  lemma {:induction false} SleepOnlyAfterDownload(lines: seq<string>, token: string, resps: seq<Response>)
    requires |resps| == |lines|
    ensures SleepsWellPlaced(RunEvents(lines, token, resps))
  {
    if |lines| > 0 {
      var first := LineEvents(lines[0], token, resps[0]);
      RunEventsCons(lines, token, resps);
      TraceSleepsWellPlaced(Classify(lines[0], resps[0]), token, resps[0].downloaded);
      if Crashed !in first {
        var rest := RunEvents(lines[1..], token, resps[1..]);
        SleepOnlyAfterDownload(lines[1..], token, resps[1..]);
        if |lines| > 1 {
          RunOpensWithStart(lines[1..], token, resps[1..]);
        }
        SleepsWellPlacedAppend(first, rest);
      }
    }
  }

  // Worked examples

  /** The line "abc" is skipped: nothing is fetched, downloaded or slept. */
  lemma SkipExample(token: string, resp: Response)
    ensures LineEvents("abc\n", token, resp) == [Skipped("abc")]
  {
    assert TrimStart("abc\n") == "abc\n";
    assert "abc\n"[..3] == "abc";
    assert TrimEnd("abc\n") == TrimEnd("abc") == "abc";
  }
}
