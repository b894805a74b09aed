/** The update check of azext_edge/edge/util/version_check.py as a throttle over a persisted session. */
module VersionThrottle {
  import opened Json

  /** Clock readings in microseconds. */
  const DAY: int := 86_400_000_000

  /** The persisted session keys `lastFetched` and `latestVersion`. */
  datatype Session = Session(lastFetched: Option<int>, latest: Option<string>)

  /** What asking the endpoint comes to: no connection, an answer with the version found in it, if any, or
      an error that ends the call. */
  datatype Endpoint = Unreachable | Answers(found: Option<string>) | Fails

  /** One call: its two clock readings, whether a refresh is forced, and the endpoint. */
  datatype Check = Check(now: int, recordedNow: int, force: bool, endpoint: Endpoint)

  const SECOND: int := 1_000_000

  /** A timestamp on a whole second is written without the fraction it is read back with; the error
      this raises ends the call. */
  predicate Unreadable(s: Session) {
    s.lastFetched.Some? && s.lastFetched.value % SECOND == 0
  }

  predicate Attempts(s: Session, c: Check) {
    !Unreadable(s) && (s.lastFetched.None? || c.force || c.now > s.lastFetched.value + DAY)
  }

  predicate Fetches(s: Session, c: Check) {
    Attempts(s, c) && c.endpoint.Answers? && c.endpoint.found.Some? && c.endpoint.found.value != ""
  }

  function Next(s: Session, c: Check): Session {
    if !Attempts(s, c) then s
    else Session(Some(c.recordedNow), if Fetches(s, c) then c.endpoint.found else s.latest)
  }

  /** An error is raised, and swallowed, before versions are compared. */
  predicate Ends(s: Session, c: Check) {
    Unreadable(s) || (Attempts(s, c) && c.endpoint.Fails?)
  }

  /** The version compared with the installed one, if the call gets that far. */
  function Compared(s: Session, c: Check, installed: string): Option<string> {
    if Ends(s, c) then None
    else if Fetches(s, c) then c.endpoint.found
    else if s.lastFetched.Some? && s.latest.Some? && s.latest.value != "" then s.latest
    else Some(installed)
  }

  class IndexManager {
    var lastFetched: Option<int>
    var latest: Option<string>

    function Value(): Session
      reads this
    {
      Session(lastFetched, latest)
    }

    /** `newer` is false as well when a version does not parse; `asked` says whether the endpoint was
        consulted. */
    method UpgradeAvailable(c: Check, installed: string, newer: (string, string) -> bool)
      returns (upgrade: Option<string>, asked: bool)
      modifies this
      ensures asked <==>
                || old(lastFetched) == None
                || (old(lastFetched).value % 1_000_000 != 0
                    && (c.force || c.now > old(lastFetched).value + 86_400_000_000))
      ensures lastFetched == if asked then Some(c.recordedNow) else old(lastFetched)
      ensures Value() == Next(old(Value()), c)
      ensures upgrade
              == match Compared(old(Value()), c, installed)
                 case Some(v) => if newer(v, installed) then Some(v) else None
                 case None => None
    {
      var version := installed;
      asked := false;
      if lastFetched.Some? && lastFetched.value % SECOND == 0 {
        return None, asked;
      }
      if lastFetched.Some? && latest.Some? && latest.value != "" {
        version := latest.value;
      }
      if lastFetched.None? || c.force || c.now > lastFetched.value + DAY {
        asked := true;
        lastFetched := Some(c.recordedNow);
        match c.endpoint
        case Unreachable =>
        case Fails => return None, asked;
        case Answers(found) =>
          if found.Some? && found.value != "" {
            version := found.value;
            latest := Some(version);
          }
      }
      upgrade := if newer(version, installed) then Some(version) else None;
    }
  }

  // ---------- whole runs ----------

  const FRESH := Session(None, None)

  function After(checks: seq<Check>): Session {
    if checks == [] then FRESH
    else var n := |checks| - 1; Next(After(checks[..n]), checks[n])
  }

  /** Nondecreasing clock, within and between calls. */
  predicate Clocked(checks: seq<Check>) {
    && (forall i | 0 <= i < |checks| :: checks[i].now <= checks[i].recordedNow)
    && (forall i, j | 0 <= i < j < |checks| :: checks[i].recordedNow <= checks[j].now)
  }

  predicate AttemptAt(checks: seq<Check>, i: nat)
    requires i < |checks|
  {
    Attempts(After(checks[..i]), checks[i])
  }

  /** The recorded time is that of the last attempt. */
  lemma {:induction false} LastAttempt(checks: seq<Check>, i: nat)
    requires i < |checks| && AttemptAt(checks, i)
    requires forall k | i < k < |checks| :: !AttemptAt(checks, k)
    ensures After(checks).lastFetched == Some(checks[i].recordedNow)
  {
    var n := |checks| - 1;
    if i < n {
      assert checks[..n][..i] == checks[..i];
      forall k | i < k < n ensures !AttemptAt(checks[..n], k) {
        assert checks[..n][..k] == checks[..k] && !AttemptAt(checks, k);
      }
      LastAttempt(checks[..n], i);
      assert !AttemptAt(checks, n);
    }
  }

  /** Main theorem: the first call consults the endpoint; a call after attempt `k`, the last one so far, does
      if and only if that attempt was recorded with a fraction of a second, and the call is forced or more
      than one day later. */
  lemma {:induction false} AttemptsIff(checks: seq<Check>, i: nat)
    requires i < |checks|
    ensures (forall k | 0 <= k < i :: !AttemptAt(checks, k)) ==> AttemptAt(checks, i)
    ensures forall k | 0 <= k < i && AttemptAt(checks, k) && (forall j | k < j < i :: !AttemptAt(checks, j)) ::
              AttemptAt(checks, i)
              <==> && checks[k].recordedNow % 1_000_000 != 0
                   && (checks[i].force || checks[i].now > checks[k].recordedNow + 86_400_000_000)
  {
    var earlier := checks[..i];
    assert forall k | 0 <= k < i :: earlier[..k] == checks[..k];
    if forall k | 0 <= k < i :: !AttemptAt(checks, k) {
      forall k | 0 <= k < i ensures !AttemptAt(earlier, k) { assert !AttemptAt(checks, k); }
      NeverAttempted(earlier);
    }
    forall k | 0 <= k < i && AttemptAt(checks, k) && (forall j | k < j < i :: !AttemptAt(checks, j))
      ensures After(earlier).lastFetched == Some(checks[k].recordedNow)
    {
      forall j | k < j < i ensures !AttemptAt(earlier, j) { assert !AttemptAt(checks, j); }
      LastAttempt(earlier, k);
    }
  }

  lemma {:induction false} NeverAttempted(checks: seq<Check>)
    requires forall k | 0 <= k < |checks| :: !AttemptAt(checks, k)
    ensures After(checks) == Session(None, None)
  {
    if checks != [] {
      var n := |checks| - 1;
      forall k | 0 <= k < n ensures !AttemptAt(checks[..n], k) {
        assert checks[..n][..k] == checks[..k] && !AttemptAt(checks, k);
      }
      NeverAttempted(checks[..n]);
      assert !AttemptAt(checks, n);
    }
  }

  /** Main theorem: what a call records, and the version it compares: the one just found, else the stored
      one, else the installed one; none when the stored time has no fraction of a second or asking fails. */
  lemma CallIs(checks: seq<Check>, i: nat, installed: string)
    requires i < |checks|
    ensures var (before, after, c) := (After(checks[..i]), After(checks[..i + 1]), checks[i]);
            var found := match c.endpoint case Answers(Some(v)) => v case _ => "";
            var stored := match before case Session(Some(_), Some(v)) => v case _ => "";
            var asks := AttemptAt(checks, i);
            && after.lastFetched == (if asks then Some(c.recordedNow) else before.lastFetched)
            && after.latest == (if asks && found != "" then Some(found) else before.latest)
            && Compared(before, c, installed)
               == (if before.lastFetched.Some? && before.lastFetched.value % 1_000_000 == 0 then None
                   else if asks && c.endpoint == Fails then None
                   else if asks && found != "" then Some(found)
                   else if stored != "" then Some(stored)
                   else Some(installed))
  {
    assert checks[..i + 1][..i] == checks[..i];
  }

  /** Main theorem: without forced refreshes, consecutive recorded attempts are over a day apart. */
  lemma AttemptsApart(checks: seq<Check>, i: nat, j: nat)
    requires Clocked(checks) && i < j < |checks| && !checks[j].force
    requires AttemptAt(checks, i) && AttemptAt(checks, j)
    requires forall k | i < k < j :: !AttemptAt(checks, k)
    ensures checks[j].recordedNow > checks[i].recordedNow + DAY
  {
    var earlier := checks[..j];
    assert earlier[..i] == checks[..i];
    forall k | i < k < j ensures !AttemptAt(earlier, k) {
      assert earlier[..k] == checks[..k] && !AttemptAt(checks, k);
    }
    LastAttempt(earlier, i);
  }

  /** The last version fetched over a run, if any was. */
  function LastFound(checks: seq<Check>): Option<string> {
    if checks == [] then None
    else
      var n := |checks| - 1;
      if Fetches(After(checks[..n]), checks[n]) then checks[n].endpoint.found else LastFound(checks[..n])
  }

  lemma {:induction false} LatestIsLastFound(checks: seq<Check>)
    ensures After(checks).latest == LastFound(checks)
    ensures LastFound(checks).Some? ==> LastFound(checks).value != "" && After(checks).lastFetched.Some?
  {
    if checks != [] { LatestIsLastFound(checks[..|checks| - 1]); }
  }

  /** Main theorem: the version compared, if any, is the last one fetched up to and including this call,
      else the installed one. */
  lemma ComparedIsLastFound(checks: seq<Check>, i: nat, installed: string)
    requires i < |checks|
    ensures Compared(After(checks[..i]), checks[i], installed)
            == if Ends(After(checks[..i]), checks[i]) then None
               else match LastFound(checks[..i + 1]) case Some(v) => Some(v) case None => Some(installed)
  {
    LatestIsLastFound(checks[..i]);
    assert checks[..i + 1][..i] == checks[..i];
  }

  /** An attempt recorded on a whole second is the last one ever: no later call, forced or not, attempts
      another or compares anything. */
  lemma {:induction false} StuckForever(checks: seq<Check>, i: nat, j: nat)
    requires i <= j <= |checks| && Unreadable(After(checks[..i]))
    ensures After(checks[..j]) == After(checks[..i])
    ensures j < |checks| ==> !AttemptAt(checks, j)
    decreases j
  {
    if i < j {
      StuckForever(checks, i, j - 1);
      assert checks[..j][..j - 1] == checks[..j - 1];
    }
  }

  /** Main theorem: after its last attempt a run can attempt again exactly when that attempt was not
      recorded on a whole second. */
  lemma {:induction false} AttemptsAgainIff(checks: seq<Check>, i: nat)
    requires i < |checks| && AttemptAt(checks, i)
    requires forall k | i < k < |checks| :: !AttemptAt(checks, k)
    ensures (exists c: Check :: Attempts(After(checks), c)) <==> checks[i].recordedNow % SECOND != 0
  {
    LastAttempt(checks, i);
    var forced := Check(0, 0, true, Unreachable);
    if checks[i].recordedNow % SECOND != 0 { assert Attempts(After(checks), forced); }
  }
}
