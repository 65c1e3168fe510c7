/**
 sc_ota: a firmware download that resumes after interruptions and feeds flash and hash in lockstep. The server,
 the flash driver, other tasks' cancellations and the clock may do anything; a faithful server is one that sends
 the image's bytes from where its answer says it starts.
 */
module Ota {
  import opened Bytes
  import opened Options
  import opened JsonText

  /** ota.start: the image's size and the hex text of its SHA-256. */
  datatype Params = Params(taskId: Text, size: nat, sha256: Text)

  datatype Err = OK | InvalidSize | InvalidState | InvalidResponse | TimedOut | NoMem | Fail | InvalidCrc | Platform(code: nat)

  datatype Reason = NoPartition | TooLarge | Cancelled | Because(err: Err) | Mismatch

  datatype Report =
    | Downloading(progress: int)
    | Verifying(progress: int)
    | Rebooting(progress: int)
    | Failed(reason: Reason)

  const MAX_ATTEMPTS := 5
  const REPORT_INTERVAL_US := 2000000
  const CONNECTION_ERROR := -1
  const FATAL := -2

  /** Progress in percent of an image of `size` bytes. */
  function Percent(n: nat, size: nat): (p: nat)
    requires size > 0
    ensures p * size <= 100 * n < (p + 1) * size
  {
    n * 100 / size
  }

  lemma PercentGrows(a: nat, b: nat, size: nat)
    requires size > 0 && a <= b
    ensures Percent(a, size) <= Percent(b, size)
    ensures b <= size ==> Percent(b, size) <= 100
  {
    DivGrows(a * 100, b * 100, size);
    if b <= size {
      DivGrows(b * 100, size * 100, size);
      DivExact(100, size);
    }
  }

  lemma {:induction false} MulLess(x: nat, y: nat, d: nat)
    requires x * d < y * d
    ensures x < y
  {
    if x > 0 && y > 0 {
      assert x * d == (x - 1) * d + d && y * d == (y - 1) * d + d;
      MulLess(x - 1, y - 1, d);
    }
  }

  lemma DivGrows(a: nat, b: nat, d: nat)
    requires d > 0 && a <= b
    ensures a / d <= b / d
  {
    var x, y := a / d, b / d;
    assert x * d + a % d == a && y * d + b % d == b;
    assert (y + 1) * d == y * d + d;
    MulLess(x, y + 1, d);
  }

  lemma DivExact(q: nat, d: nat)
    requires d > 0
    ensures q * d / d == q
  {
    var r := q * d / d;
    assert r * d + (q * d) % d == q * d;
    assert (r + 1) * d == r * d + d && (q + 1) * d == q * d + d;
    MulLess(q, r + 1, d);
    MulLess(r, q + 1, d);
  }

  /** Progress never goes back and stays within 0..100; a failure carries none. */
  predicate Steady(reports: seq<Report>) {
    && (forall i :: 0 <= i < |reports| && !reports[i].Failed? ==> 0 <= reports[i].progress <= 100)
    && (forall i, j :: 0 <= i < j < |reports| && !reports[i].Failed? && !reports[j].Failed? ==> reports[i].progress <= reports[j].progress)
  }

  /** No report shows more than `p` percent. */
  predicate AtMost(reports: seq<Report>, p: int) {
    forall i :: 0 <= i < |reports| && !reports[i].Failed? ==> reports[i].progress <= p
  }

  /** A report that does not step back. */
  predicate MayFollow(reports: seq<Report>, r: Report) {
    r.Failed? || (0 <= r.progress <= 100 && AtMost(reports, r.progress))
  }

  lemma ReportOne(reports: seq<Report>, r: Report)
    requires Steady(reports) && MayFollow(reports, r)
    ensures Steady(reports + [r])
    ensures !r.Failed? ==> AtMost(reports + [r], r.progress)
  {
  }

  lemma HundredFollows(reports: seq<Report>)
    requires Steady(reports)
    ensures AtMost(reports, 100)
  {
  }

  const PATIENCE := 4

  /** The status that a download from byte `offset` on needs: all of the file from 0 on, a part of it further on. */
  function Wanted(offset: nat): int {
    if offset == 0 then 200 else 206
  }

  /**
   The HTTP server behind the signed URL. A faithful one sends the image's bytes. A reliable one never answers with an
   error, and after at most four fruitless connections in a row it accepts one and delivers data on it.
   */
  class Server {
    const image: Text
    const faithful: bool
    const reliable: bool
    /** Connections since the last one that is sure to deliver, and whether the present one is and has yet to. */
    var doubtful: nat
    var sure: bool
    var unread: bool

    constructor (image: Text, faithful: bool, reliable: bool)
      ensures doubtful == 0 && this.image == image && this.faithful == faithful && this.reliable == reliable
    {
      this.image, this.faithful, this.reliable := image, faithful, reliable;
      doubtful, sure, unread := 0, false, false;
    }

    /** The status of an answer to a request from byte `offset` on; 0 when there is no connection. */
    method Open(offset: nat) returns (status: int)
      modifies this`doubtful, this`sure, this`unread
      ensures reliable && sure ==> status == Wanted(offset) && unread && doubtful == 0
      ensures reliable && !sure ==> status < 400 && doubtful == old(doubtful) + 1 && (old(doubtful) <= PATIENCE ==> doubtful <= PATIENCE)
    {
      status := *;
      sure := *;
      if doubtful >= PATIENCE {
        sure := true;
      }
      unread := true;
      if sure {
        doubtful := 0;
        status := Wanted(offset);
      } else {
        doubtful := doubtful + 1;
        if reliable && status >= 400 {
          status := 0;
        }
      }
    }

    /** esp_http_client_read() at byte `at` of the image: at most `want` bytes, 0 or less when the connection breaks. */
    method Read(at: nat, want: nat) returns (n: int, chunk: Text)
      modifies this`unread
      ensures n <= want && (n > 0 ==> |chunk| == n) && !unread
      ensures n > 0 && faithful ==> at + n <= |image| && chunk == image[at..at + n]
      ensures faithful && reliable && sure && old(unread) && want > 0 && at < |image| ==> n > 0
    {
      n, chunk := *, *;
      if n > want || |chunk| != n || (n > 0 && faithful && !(at + n <= |image| && chunk == image[at..at + n])) {
        n, chunk := 0, [];
      }
      if n <= 0 && faithful && reliable && sure && unread && want > 0 && at < |image| {
        n, chunk := 1, image[at..at + 1];
      }
      unread := false;
    }
  }

  class Updater {
    const server: Server
    const sha: Text -> Text
    const httpBuffer: nat
    /** Nobody cancels; the driver, the allocator and the hash setup never fail. */
    const quiet: bool
    const sound: bool
    var params: Params
    var running: bool
    var cancelRequested: bool
    var lastProgress: int
    var lastReport: int

    // The platform: what was written, what was hashed, whether a write failed half-way, and the boot choice.
    var flash: Text
    var hashed: Text
    var writeFailed: bool
    var bootSwitched: bool
    var reports: seq<Report>
    /** Connections made, those without progress since the last one with, and whether one failed for good. */
    ghost var connections: nat
    ghost var failures: nat
    ghost var fatal: bool

    constructor (server: Server, sha: Text -> Text, httpBuffer: nat, quiet: bool, sound: bool)
      ensures !running && !bootSwitched && this.server == server && this.sha == sha && this.httpBuffer == httpBuffer
      ensures this.quiet == quiet && this.sound == sound
    {
      this.server, this.sha, this.httpBuffer, this.quiet, this.sound := server, sha, httpBuffer, quiet, sound;
      params := Params([], 0, []);
      running, cancelRequested, lastProgress, lastReport := false, false, -1, 0;
      flash, hashed, writeFailed, bootSwitched, reports, connections := [], [], false, false, [], 0;
      failures, fatal := 0, false;
    }

    /** start() up to the task's creation; the same update may arrive twice, another one must wait. */
    method Start(p: Params, taskCreated: bool) returns (ret: Err)
      modifies this`params, this`running, this`cancelRequested, this`lastProgress, this`lastReport
      ensures old(running) ==> ret == (if p.taskId == old(params).taskId then OK else InvalidState)
                               && params == old(params) && running && cancelRequested == old(cancelRequested)
                               && lastProgress == old(lastProgress) && lastReport == old(lastReport)
      ensures !old(running) ==> ret == (if taskCreated then OK else NoMem) && running == taskCreated
                                && params == p && !cancelRequested && lastProgress == -1 && lastReport == 0
    {
      if running {
        return if p.taskId == params.taskId then OK else InvalidState;
      }
      running := true;
      params := p;
      cancelRequested := false;
      lastProgress, lastReport := -1, 0;
      if !taskCreated {
        running := false;
        return NoMem;
      }
      return OK;
    }

    method Cancel(taskId: Text) returns (found: bool)
      modifies this`cancelRequested
      ensures found == (running && taskId == params.taskId)
      ensures cancelRequested == (old(cancelRequested) || found)
    {
      if !running || taskId != params.taskId {
        return false;
      }
      cancelRequested := true;
      return true;
    }

    /** cancel_requested.load(): another task may have set it since. */
    method PollCancel() returns (c: bool)
      modifies this`cancelRequested
      ensures c == cancelRequested && (old(cancelRequested) ==> c) && (quiet ==> c == old(cancelRequested))
    {
      var now: bool := *;
      now := now && !quiet;
      cancelRequested := cancelRequested || now;
      c := cancelRequested;
    }

    method Publish(r: Report)
      modifies this`reports
      ensures reports == old(reports) + [r]
      ensures Steady(old(reports)) && MayFollow(old(reports), r) ==> Steady(reports) && (!r.Failed? ==> AtMost(reports, r.progress))
    {
      if Steady(reports) && MayFollow(reports, r) {
        ReportOne(reports, r);
      }
      reports := reports + [r];
    }

    /** esp_ota_write(): all of the chunk, or an error after any part of it. */
    method Write(chunk: Text) returns (ok: bool)
      modifies this`flash, this`writeFailed
      ensures ok ==> flash == old(flash) + chunk && writeFailed == old(writeFailed)
      ensures sound ==> ok
      ensures !ok ==> writeFailed && exists k :: 0 <= k <= |chunk| && flash == old(flash) + chunk[..k]
    {
      var k: int := *;
      ok := *;
      ok := ok || sound;
      if ok {
        flash := flash + chunk;
      } else {
        var part := chunk[..if 0 <= k <= |chunk| then k else 0];
        flash := flash + part;
        writeFailed := true;
      }
    }

    /** Until a write fails, flash and hash have seen the same bytes, of a faithful server the image's first ones. */
    ghost predicate Lockstep()
      reads this`flash, this`hashed, this`writeFailed
    {
      !writeFailed ==>
        && flash == hashed
        && (server.faithful ==> |flash| <= |server.image| && flash == server.image[..|flash|])
    }

    ghost predicate InFlash(done: nat)
      reads this`flash, this`hashed, this`writeFailed, this`params
    {
      Lockstep() && !writeFailed && |flash| == done <= params.size
    }

    ghost predicate Shown(done: nat)
      reads this`reports, this`params
    {
      Steady(reports) && (params.size > 0 ==> AtMost(reports, Percent(done, params.size)))
    }

    /** `done` bytes are in flash, and the reports show no more than that. */
    ghost predicate Progressed(done: nat)
      reads this`flash, this`hashed, this`writeFailed, this`params, this`reports
    {
      InFlash(done) && Shown(done)
    }

    method ReportProgress(ghost before: nat, done: nat)
      requires before <= done <= params.size && params.size > 0 && Shown(before)
      modifies this`reports, this`lastProgress, this`lastReport
      ensures Shown(done)
    {
      PercentGrows(before, done, params.size);
      var progress := Percent(done, params.size);
      var now: int := *;
      if progress != lastProgress && now - lastReport >= REPORT_INTERVAL_US {
        Publish(Downloading(progress));
        lastProgress := progress;
        lastReport := now;
      }
    }

    /** A chunk into flash and hash. */
    method Feed(ghost at: nat, chunk: Text) returns (ok: bool)
      requires InFlash(at) && at + |chunk| <= params.size
      requires server.faithful ==> at + |chunk| <= |server.image| && chunk == server.image[at..at + |chunk|]
      modifies this`flash, this`hashed, this`writeFailed
      ensures if ok then InFlash(at + |chunk|) && flash == old(flash) + chunk else Lockstep() && writeFailed
      ensures old(flash) <= flash && (sound ==> ok)
    {
      ok := Write(chunk);
      if ok {
        hashed := hashed + chunk;
      }
    }

    /** Nothing stands in the way of the update: the server is faithful, reliable and long enough, and the device works. */
    ghost predicate Favourable()
      reads this`params, this`cancelRequested, server`doubtful
    {
      && server.faithful && server.reliable && params.size <= |server.image| && server.doubtful <= PATIENCE
      && quiet && sound && !cancelRequested
    }

    /** A connection on which data is sure to come and to be stored. */
    ghost predicate Willing()
      reads this`params, server`sure
    {
      server.faithful && server.reliable && server.sure && sound && params.size <= |server.image|
    }

    /** One turn of the read loop: the bytes added, 0 when the connection ends, or FATAL. */
    method ReadChunk(at: nat, start: nat) returns (n: int)
      requires InFlash(at) && at == start < params.size && httpBuffer > 0
      modifies this`flash, this`hashed, this`writeFailed, server`unread
      ensures n >= 0 || n == FATAL
      ensures n >= 0 ==> InFlash(at + n)
      ensures Lockstep() && old(flash) <= flash
      ensures sound ==> n >= 0
      ensures Willing() && old(server.unread) ==> n > 0
    {
      var want := params.size - at;
      if want > httpBuffer {
        want := httpBuffer;
      }
      var chunk;
      n, chunk := server.Read(start, want);
      if n <= 0 {
        return 0;
      }
      var written := Feed(at, chunk);
      if !written {
        return FATAL;
      }
    }

    /**
     Whether the server answers with the bytes from `offset` on, and where its answer starts: a 206 answer at the
     requested byte, any other one at 0. Other 4xx and 5xx answers are not retried.
     */
    method Connect(offset: nat) returns (answer: Err, start: nat, status: int)
      modifies this`connections, server`doubtful, server`sure, server`unread
      ensures connections == old(connections) + 1
      ensures answer == OK <==> (offset == 0 && status == 200) || (offset > 0 && status == 206)
      ensures answer == InvalidResponse <==> answer != OK && status >= 400
      ensures answer == TimedOut <==> answer != OK && status < 400
      ensures answer == OK ==> start == offset
      ensures server.reliable ==> answer != InvalidResponse && (server.sure ==> answer == OK && server.unread && server.doubtful == 0)
      ensures server.reliable && !server.sure ==> server.doubtful == old(server.doubtful) + 1 && (old(server.doubtful) <= PATIENCE ==> server.doubtful <= PATIENCE)
    {
      connections := connections + 1;
      status := server.Open(offset);
      var statusOk := if offset == 0 then status == 200 else status == 206;
      answer := if statusOk then OK else if status >= 400 then InvalidResponse else TimedOut;
      start := if status == 206 then offset else 0;
    }

    /** One connection: the bytes it added to the image, or why it added none. */
    method DownloadFrom(offset: nat) returns (n: int)
      requires Progressed(offset) && offset < params.size && httpBuffer > 0
      requires !fatal && failures < MAX_ATTEMPTS
      modifies this`cancelRequested, this`flash, this`hashed, this`writeFailed, this`reports, this`lastProgress, this`lastReport,
               this`connections, this`failures, this`fatal, server`doubtful, server`sure, server`unread
      ensures n == FATAL || n == CONNECTION_ERROR || n > 0
      ensures n != FATAL ==> Progressed(offset + if n > 0 then n else 0)
      ensures Lockstep() && Steady(reports) && old(flash) <= flash
      ensures connections == old(connections) + 1
      ensures fatal == (n == FATAL) && failures == (if n > 0 then 0 else old(failures) + 1)
      ensures old(Favourable()) ==> Favourable() && n != FATAL && (n > 0 || server.doubtful == old(server.doubtful) + 1)
    {
      n := Transfer(offset);
      fatal, failures := n == FATAL, if n > 0 then 0 else failures + 1;
    }

    method Transfer(offset: nat) returns (n: int)
      requires Progressed(offset) && offset < params.size && httpBuffer > 0
      modifies this`cancelRequested, this`flash, this`hashed, this`writeFailed, this`reports, this`lastProgress, this`lastReport, this`connections,
               server`doubtful, server`sure, server`unread
      ensures n == FATAL || n == CONNECTION_ERROR || n > 0
      ensures n != FATAL ==> Progressed(offset + if n > 0 then n else 0)
      ensures Lockstep() && Steady(reports) && old(flash) <= flash
      ensures connections == old(connections) + 1
      ensures old(Favourable()) ==> Favourable() && n != FATAL && (n > 0 || server.doubtful == old(server.doubtful) + 1)
    {
      hide Progressed, Lockstep;
      var answer, start, status := Connect(offset);
      if answer != OK {
        ProgressHolds(offset);
        return if answer == InvalidResponse then FATAL else CONNECTION_ERROR;
      }
      var totalRead := ReadBody(offset, start);
      return if totalRead == 0 then CONNECTION_ERROR else totalRead;
    }

    lemma ProgressHolds(offset: nat)
      requires Progressed(offset)
      ensures Lockstep() && Steady(reports)
    {
    }

    /** The read loop of a connection: the bytes it added, or FATAL. */
    method ReadBody(offset: nat, start: nat) returns (totalRead: int)
      requires Progressed(offset) && offset == start < params.size && httpBuffer > 0
      modifies this`cancelRequested, this`flash, this`hashed, this`writeFailed, this`reports, this`lastProgress, this`lastReport, server`unread
      ensures totalRead == FATAL || totalRead >= 0
      ensures totalRead != FATAL ==> Progressed(offset + totalRead)
      ensures Lockstep() && Steady(reports) && old(flash) <= flash
      ensures old(Favourable()) ==> Favourable() && totalRead != FATAL
      ensures old(Favourable()) && server.sure && old(server.unread) ==> totalRead > 0
    {
      hide Steady, AtMost, Percent, Lockstep;
      totalRead := 0;
      var cancelled := PollCancel();
      while offset + totalRead < params.size && !cancelled
        invariant totalRead >= 0 && Progressed(offset + totalRead) && old(flash) <= flash
        invariant old(Favourable()) ==> Favourable() && !cancelled
        invariant old(Favourable()) && server.sure && old(server.unread) ==> totalRead > 0 || server.unread
        decreases params.size - offset - totalRead
      {
        var readLen := ReadChunk(offset + totalRead, start + totalRead);
        if readLen == 0 {
          break;
        }
        if readLen == FATAL {
          return FATAL;
        }
        totalRead := totalRead + readLen;
        ReportProgress(offset + totalRead - readLen, offset + totalRead);
        if offset + totalRead < params.size {
          cancelled := PollCancel();
        }
      }
    }

    /**
     The retry loop: at most five connections for every byte of progress. It gives up only when cancelled, after a
     failure for good, or after five connections in a row without progress.
     */
    method Download() returns (ret: Err, digest: Text)
      requires Progressed(0) && httpBuffer > 0 && !fatal && failures == 0
      modifies this`cancelRequested, this`flash, this`hashed, this`writeFailed, this`reports, this`lastProgress, this`lastReport,
               this`connections, this`failures, this`fatal, server`doubtful, server`sure, server`unread
      ensures ret in {OK, NoMem, Fail, InvalidState, InvalidResponse, TimedOut}
      ensures ret == InvalidState ==> cancelRequested
      ensures ret == InvalidResponse <==> fatal
      ensures ret == TimedOut ==> failures == 5
      ensures ret == OK ==> Progressed(params.size) && digest == sha(hashed)
      ensures Lockstep() && Steady(reports)
      ensures old(cancelRequested) && params.size > 0 ==> ret != OK
      ensures connections <= old(connections) + 5 * params.size
      ensures old(Favourable()) ==> ret == OK
    {
      ret, digest := OK, [];
      var bufferAllocated: bool, hashReady: bool := *, *;
      if !bufferAllocated && !sound {
        return NoMem, [];
      }
      if !hashReady && !sound {
        return Fail, [];
      }
      var offset, attempts := 0, 0;
      while offset < params.size
        invariant !fatal && failures == attempts && ret == OK
        invariant 0 <= attempts < MAX_ATTEMPTS && (offset == params.size ==> attempts == 0)
        invariant Progressed(offset)
        invariant old(cancelRequested) ==> offset == 0 && cancelRequested
        invariant connections <= old(connections) + MAX_ATTEMPTS * offset + attempts
        invariant old(Favourable()) ==> Favourable() && attempts <= server.doubtful
        decreases params.size - offset, MAX_ATTEMPTS - attempts
      {
        var cancelled := PollCancel();
        if cancelled {
          ret := InvalidState;
          break;
        }
        var readLen := DownloadFrom(offset);
        if readLen > 0 {
          offset := offset + readLen;
          attempts := 0;
          continue;
        }
        attempts := attempts + 1;
        if readLen < -1 || attempts >= MAX_ATTEMPTS {
          ret := if readLen < -1 then InvalidResponse else TimedOut;
          break;
        }
      }
      if ret == OK {
        digest := sha(hashed);
      }
    }

    /** The digest as two hex digits a byte. */
    method HexText(digest: Text) returns (hex: Text)
      ensures hex == Hex(digest)
    {
      hex := [];
      for idx := 0 to |digest|
        invariant hex == Hex(digest[..idx])
      {
        HexSnoc(digest, idx);
        hex := hex + HexPair(digest[idx]);
      }
      assert digest[..|digest|] == digest;
    }

    lemma Unreported()
      ensures Steady([]) && AtMost([], 0)
    {
    }

    lemma NoProgress()
      ensures params.size > 0 ==> Percent(0, params.size) == 0
    {
    }

    /**
     The whole update. Whatever the server, the driver and other tasks do, the boot partition is switched only to
     an image of exactly `size` bytes whose SHA-256 is the expected one, and never after a failure; with a faithful
     server any pattern of interruptions that ends in success leaves the image itself. And it does succeed, if the image
     is the expected one and nothing but up to four fruitless connections in a row stands in the way. `partition` is the
     size of the next update partition, if there is one.
     */
    method Run(partition: Option<nat>) returns (ret: Err)
      requires !bootSwitched && reports == [] && httpBuffer > 0 && !fatal && failures == 0
      modifies this`cancelRequested, this`flash, this`hashed, this`writeFailed, this`reports, this`lastProgress, this`lastReport,
               this`bootSwitched, this`connections, this`failures, this`fatal, server`doubtful, server`sure, server`unread
      ensures bootSwitched <==> ret == OK
      ensures ret == OK ==> partition.Some? && |flash| == params.size <= partition.value && Hex(sha(flash)) == params.sha256
      ensures ret == OK && server.faithful ==> params.size <= |server.image| && flash == server.image[..params.size]
      ensures old(cancelRequested) && params.size > 0 ==> ret != OK
      ensures connections <= old(connections) + 5 * params.size
      ensures Steady(reports) && reports != []
      ensures if ret == OK then reports[|reports| - 1] == Rebooting(100) else reports[|reports| - 1].Failed?
      ensures old(Favourable()) && partition.Some? && params.size <= partition.value && Hex(sha(server.image[..params.size])) == params.sha256 ==> ret == OK
    {
      hide Steady, AtMost;
      Unreported();
      if partition.None? || params.size > partition.value {
        Publish(Failed(if partition.None? then NoPartition else TooLarge));
        return InvalidSize;
      }
      Publish(Downloading(0));
      var begun: Err := *;
      if begun != OK && !sound {
        Publish(Failed(Because(begun)));
        return begun;
      }
      flash, hashed, writeFailed := [], [], false;
      NoProgress();

      var digest;
      ret, digest := Download();
      if ret != OK {
        var cancelled := PollCancel();
        Publish(Failed(if cancelled then Cancelled else Because(ret)));
        return;
      }

      ret := VerifyAndSwitch(digest);
    }

    /** From the downloaded image to the new boot partition. */
    method VerifyAndSwitch(digest: Text) returns (ret: Err)
      requires !bootSwitched && Steady(reports)
      modifies this`reports, this`bootSwitched
      ensures bootSwitched <==> ret == OK
      ensures ret == OK ==> Hex(digest) == params.sha256
      ensures sound && Hex(digest) == params.sha256 ==> ret == OK
      ensures Steady(reports) && reports != []
      ensures if ret == OK then reports[|reports| - 1] == Rebooting(100) else reports[|reports| - 1].Failed?
    {
      hide Steady, AtMost;
      HundredFollows(reports);
      Publish(Verifying(100));
      var hex := HexText(digest);
      if hex != params.sha256 {
        Publish(Failed(Mismatch));
        return InvalidCrc;
      }
      // esp_ota_end() and esp_ota_set_boot_partition() may still refuse the image.
      ret := *;
      if sound {
        ret := OK;
      }
      if ret != OK {
        Publish(Failed(Because(ret)));
        return;
      }
      bootSwitched := true;
      Publish(Rebooting(100));
    }
  }
}
