/**
 * `POST /api/jobs`: an authenticated upload of a video file, saved under the
 * temp directory with a timestamped, whitespace-free name and handed to the
 * `video-processing` queue with three attempts and exponential backoff.
 */
module JobsRoute {
  import opened Wrappers
  import opened JsString
  import opened NodePath
  import opened Store

  // ---------------- file name sanitisation ----------------

  /** A character of the regular-expression class `\s`: Unicode white space, line terminators and the BOM. */
  predicate IsSpace(c: char) {
    var n := c as int;
    || (9 <= n <= 13) || n == 32 || n == 0xA0 || n == 0x1680 || (0x2000 <= n <= 0x200A)
    || n == 0x2028 || n == 0x2029 || n == 0x202F || n == 0x205F || n == 0x3000 || n == 0xFEFF
  }

  /** The length of the run of white space `s` starts with. */
  function RunLength(s: string): (k: nat)
    ensures k <= |s|
    ensures forall i :: 0 <= i < k ==> IsSpace(s[i])
    ensures k < |s| ==> !IsSpace(s[k])
  {
    if |s| == 0 || !IsSpace(s[0]) then 0 else 1 + RunLength(s[1..])
  }

  /** `name.replace(/\s+/g, '_')`: each maximal run of white space, taken from the left, becomes one `_`. */
  function Sanitise(s: string): (r: string)
    ensures SpaceFree(r)
    ensures |r| <= |s|
    decreases |s|
  {
    if |s| == 0 then ""
    else if IsSpace(s[0]) then "_" + Sanitise(s[RunLength(s)..])
    else [s[0]] + Sanitise(s[1..])
  }

  /**
   * The same rule one character at a time: a white-space character becomes
   * `_` when the character before it was not white space, and disappears
   * when it was; every other character is kept.
   */
  function PerChar(s: string, afterSpace: bool): string {
    if |s| == 0 then ""
    else if !IsSpace(s[0]) then [s[0]] + PerChar(s[1..], false)
    else (if afterSpace then "" else "_") + PerChar(s[1..], true)
  }

  lemma {:induction false} PerCharSkipsRun(s: string)
    ensures PerChar(s, true) == PerChar(s[RunLength(s)..], true)
    decreases |s|
  {
    if |s| > 0 && IsSpace(s[0]) {
      PerCharSkipsRun(s[1..]);
      assert s[1..][RunLength(s[1..])..] == s[RunLength(s)..];
    }
  }

  /** The run-by-run replacement and the character-by-character rule agree on every name. */
  lemma {:induction false} SanitiseIsPerChar(s: string)
    ensures Sanitise(s) == PerChar(s, false)
    decreases |s|
  {
    if |s| > 0 {
      if IsSpace(s[0]) {
        var k := RunLength(s);
        SanitiseIsPerChar(s[k..]);
        PerCharSkipsRun(s[1..]);
        assert s[1..][RunLength(s[1..])..] == s[k..];
        if k < |s| {
          assert PerChar(s[k..], true) == PerChar(s[k..], false);
        }
      } else {
        SanitiseIsPerChar(s[1..]);
      }
    }
  }

  /** No character of `s` is white space. */
  predicate SpaceFree(s: string) {
    forall i :: 0 <= i < |s| ==> !IsSpace(s[i])
  }

  /** The characters other than white space and `_`, in order. */
  function Visible(s: string): string {
    if |s| == 0 then ""
    else if IsSpace(s[0]) || s[0] == '_' then Visible(s[1..])
    else [s[0]] + Visible(s[1..])
  }

  lemma {:induction false} VisibleSkipsRun(s: string)
    ensures Visible(s) == Visible(s[RunLength(s)..])
    decreases |s|
  {
    if |s| > 0 && IsSpace(s[0]) {
      VisibleSkipsRun(s[1..]);
      assert s[1..][RunLength(s[1..])..] == s[RunLength(s)..];
    }
  }

  /** The characters other than white space, in order. */
  function NonSpace(s: string): string {
    if |s| == 0 then ""
    else if IsSpace(s[0]) then NonSpace(s[1..])
    else [s[0]] + NonSpace(s[1..])
  }

  lemma {:induction false} NonSpaceSkipsRun(s: string)
    ensures NonSpace(s) == NonSpace(s[RunLength(s)..])
    decreases |s|
  {
    if |s| > 0 && IsSpace(s[0]) {
      NonSpaceSkipsRun(s[1..]);
      assert s[1..][RunLength(s[1..])..] == s[RunLength(s)..];
    }
  }

  /** `x` occurs in `y` in order, possibly with other characters in between. */
  predicate Embeds(x: string, y: string)
    decreases |y|
  {
    |x| == 0 || (|y| > 0 && ((x[0] == y[0] && Embeds(x[1..], y[1..])) || Embeds(x, y[1..])))
  }

  /**
   * The sanitised name holds no white space; every character of the name
   * that is not white space (an `_` included) occurs in it in order; and
   * apart from the `_`s, the two hold the same characters in the same order.
   */
  lemma {:induction false} SanitiseShape(s: string)
    ensures SpaceFree(Sanitise(s))
    ensures Embeds(NonSpace(s), Sanitise(s))
    ensures Visible(Sanitise(s)) == Visible(s)
    decreases |s|
  {
    if |s| > 0 {
      if IsSpace(s[0]) {
        var rest := s[RunLength(s)..];
        SanitiseShape(rest);
        VisibleSkipsRun(s);
        NonSpaceSkipsRun(s);
        assert !IsSpace('_');
        assert Visible(s) == Visible(rest);
        assert ("_" + Sanitise(rest))[1..] == Sanitise(rest);
      } else {
        SanitiseShape(s[1..]);
        assert ([s[0]] + Sanitise(s[1..]))[1..] == Sanitise(s[1..]);
        assert ([s[0]] + NonSpace(s[1..]))[1..] == NonSpace(s[1..]);
      }
    }
  }

  /** A name without white space is left as it is. */
  lemma {:induction false} SanitiseSpaceFree(s: string)
    requires SpaceFree(s)
    ensures Sanitise(s) == s
    decreases |s|
  {
    if |s| > 0 {
      SanitiseSpaceFree(s[1..]);
      assert s == [s[0]] + s[1..];
    }
  }

  /** Sanitising a sanitised name changes nothing. */
  lemma SanitiseIdempotent(s: string)
    ensures Sanitise(Sanitise(s)) == Sanitise(s)
  {
    SanitiseShape(s);
    SanitiseSpaceFree(Sanitise(s));
  }

  /** `${Date.now()}-${sanitised name}`. */
  function UniqueName(now: nat, fileName: string): string {
    NatToString(now) + "-" + Sanitise(fileName)
  }

  /** The timestamp's digits, a `-`, then the sanitised name, so the name part reads back. */
  lemma UniqueNameShape(now: nat, fileName: string)
    ensures var u := UniqueName(now, fileName);
      var d := |NatToString(now)|;
      && AllDigits(u[..d]) && DigitsValue(u[..d]) == now
      && u[d] == '-'
      && u[d + 1..] == Sanitise(fileName)
      && SpaceFree(u)
  {
    var u := UniqueName(now, fileName);
    var t := NatToString(now);
    assert u[..|t|] == t;
    assert u[|t| + 1..] == Sanitise(fileName);
    DigitsValueOfNatToString(now);
    SanitiseShape(fileName);
    forall i | 0 <= i < |u|
      ensures !IsSpace(u[i])
    {
      if i < |t| {
        assert IsDigit(t[i]);
      } else if i > |t| {
        assert u[i] == Sanitise(fileName)[i - |t| - 1];
      }
    }
  }

  // ---------------- the handler ----------------

  /** The form's `file` entry: only its name matters here; its bytes are not modelled. */
  datatype UploadedFile = UploadedFile(name: string)

  datatype Reply = Accepted(jobId: nat) | Failure(status: nat, message: string)

  /** The job the route enqueues for a saved upload. */
  function UploadJob(filePath: string, userId: string, fileName: string): QueuedJob {
    QueuedJob("process-video", FileJob(filePath, userId, fileName), JobOptions(3, Backoff("exponential", 1000)))
  }

  /** Where an upload is saved. */
  function UploadPath(tempDir: string, now: nat, fileName: string): string {
    JoinPath(tempDir, UniqueName(now, fileName))
  }

  /**
   * `POST`. `userId` is the session's user (absent or empty when signed
   * out), `file` the form's entry, `tempDir` and `now` the OS temp directory
   * and clock; `writeOk` and `enqueueOk` say whether the write and the
   * enqueue succeed.
   */
  method Post(fs: FileSystem, queue: JobQueue, userId: Option<string>, file: Option<UploadedFile>,
              tempDir: string, now: nat, writeOk: bool, enqueueOk: bool) returns (reply: Reply)
    modifies fs, queue
    ensures userId.None? || userId.value == "" ==>
      reply == Failure(401, "Unauthorized") && fs.paths == old(fs.paths) && queue.jobs == old(queue.jobs)
    ensures userId.Some? && userId.value != "" && file.None? ==>
      reply == Failure(400, "No file found") && fs.paths == old(fs.paths) && queue.jobs == old(queue.jobs)
    ensures userId.Some? && userId.value != "" && file.Some? ==>
      var path := UploadPath(tempDir, now, file.value.name);
      && fs.paths == (if writeOk then old(fs.paths) + {path} else old(fs.paths))
      && queue.jobs == (if writeOk && enqueueOk then old(queue.jobs) + [UploadJob(path, userId.value, file.value.name)]
                        else old(queue.jobs))
      && reply == (if writeOk && enqueueOk then Accepted(|old(queue.jobs)| + 1)
                   else Failure(500, "Internal Server Error"))
  {
    if userId.None? || userId.value == "" {
      return Failure(401, "Unauthorized");
    }
    if file.None? {
      return Failure(400, "No file found");
    }
    var filePath := UploadPath(tempDir, now, file.value.name);
    if !writeOk {
      return Failure(500, "Internal Server Error");
    }
    fs.Create(filePath);
    var jobId := queue.Add(UploadJob(filePath, userId.value, file.value.name), enqueueOk);
    if jobId.None? {
      return Failure(500, "Internal Server Error");
    }
    reply := Accepted(jobId.value);
  }
}
