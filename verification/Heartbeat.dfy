/** The heartbeat contract: what a supervisor's file claims, and for how long. */
module Heartbeats {
  import opened Paths
  import opened Options

  const DEFAULT_INTERVAL: nat := 60

  /** A path as written in a heartbeat file. */
  datatype RawPath = RawPath(absolute: bool, path: Path)

  /** A decoded heartbeat body. `updatedAt` is what its timestamp parses to, in seconds. */
  datatype RawHeartbeat = RawHeartbeat(
    sessionId: Option<string>, workspace: Option<RawPath>, tmp: seq<RawPath>, pid: Option<nat>,
    intervalSeconds: Option<nat>, updatedAt: Option<nat>)

  datatype Body = CannotRead | NotJson | Parsed(raw: RawHeartbeat)

  datatype Heartbeat = Heartbeat(
    sessionId: string, paths: seq<Path>, pid: Option<nat>, interval: nat, updatedAt: real, unreadable: bool)
  {
    predicate IsLive(now: real, multiplier: real, pidAlive: nat -> bool) {
      || unreadable
      || (pid.Some? && pidAlive(pid.value))
      || (if now < updatedAt then 0.0 else now - updatedAt) < interval as real * multiplier
    }
  }

  /** `unreadable` if listing the directory failed. */
  datatype HeartbeatIndex = HeartbeatIndex(entries: seq<Heartbeat>, unreadable: bool)

  function Absolute(paths: seq<RawPath>): (r: seq<Path>)
    ensures forall p :: p in r <==> RawPath(true, p) in paths
  {
    if paths == [] then []
    else
      var rest := Absolute(paths[1..]);
      assert paths == [paths[0]] + paths[1..];
      if paths[0].absolute then [paths[0].path] + rest else rest
  }

  /** Builds one record from the file's stem, its mtime and its body. */
  method ReadOne(stem: string, mtime: real, body: Body) returns (hb: Heartbeat)
    ensures !body.Parsed? ==> hb == Heartbeat(stem, [], None, 60, mtime, true)
    ensures body.Parsed? ==>
              && !hb.unreadable && hb.pid == body.raw.pid
              && hb.sessionId == (if body.raw.sessionId.Some? then body.raw.sessionId.value else stem)
              // Absent it is a minute, and zero is taken for one second.
              && hb.interval == (match body.raw.intervalSeconds
                                 case None => 60
                                 case Some(n) => if n == 0 then 1 else n)
              // The newer of the declared time and the file's own.
              && mtime <= hb.updatedAt
              && (forall n :: body.raw.updatedAt == Some(n) ==> n as real <= hb.updatedAt)
              && (hb.updatedAt == mtime || exists n :: body.raw.updatedAt == Some(n) && hb.updatedAt == n as real)
              && (forall p :: p in hb.paths <==>
                             body.raw.workspace == Some(RawPath(true, p)) || RawPath(true, p) in body.raw.tmp)
  {
    hb := Heartbeat(stem, [], None, DEFAULT_INTERVAL, mtime, false);
    if !body.Parsed? {
      hb := hb.(unreadable := true);
      return;
    }
    var raw := body.raw;
    if raw.sessionId.Some? {
      hb := hb.(sessionId := raw.sessionId.value);
    }
    hb := hb.(pid := raw.pid);
    if raw.intervalSeconds.Some? {
      // At least one second, or no heartbeat would ever be live.
      hb := hb.(interval := if raw.intervalSeconds.value < 1 then 1 else raw.intervalSeconds.value);
    }
    if raw.updatedAt.Some? && raw.updatedAt.value as real > hb.updatedAt {
      hb := hb.(updatedAt := raw.updatedAt.value as real);
    }
    var claimed := (if raw.workspace.Some? then [raw.workspace.value] else []) + raw.tmp;
    hb := hb.(paths := Absolute(claimed));
  }
}
