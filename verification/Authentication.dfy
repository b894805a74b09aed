/** The two implementations that update an authentication block: `process_authentication` of
    azext_edge/edge/providers/adr/helpers.py and `_process_authentication` of
    azext_edge/edge/providers/adr/asset_endpoint_profiles.py. */
module Authentication {
  import opened Json

  /** The known values of `method`, and any other text. */
  datatype Mode = Anonymous | Certificate | UserPass | OtherMode(text: string)

  datatype X509 = X509(certificate: string, key: Option<string>, intermediate: Option<string>)

  datatype Creds = Creds(username: Option<string>, password: Option<string>)

  /** The authentication dict: its three keys, each possibly absent. */
  datatype Block = Block(mode: Option<Mode>, x509: Option<X509>, userpass: Option<Creds>)

  const EMPTY := Block(None, None, None)

  datatype Args = Args(
    mode: Option<Mode>,
    certificate: Option<string>,
    key: Option<string>,
    intermediate: Option<string>,
    username: Option<string>,
    password: Option<string>)

  /** Python truth of an optional text. */
  predicate Given(s: Option<string>) {
    s.Some? && s.value != ""
  }

  predicate ModeGiven(m: Option<Mode>) {
    m.Some? && m.value != OtherMode("")
  }

  function IfGiven(s: Option<string>): Option<string> {
    if Given(s) then s else None
  }

  datatype Failure = CertificateRequired | Mismatch | UserPassRequired | GeneralMismatch

  datatype Outcome = Updated | Failed(why: Failure)

  predicate UserGiven(a: Args) {
    Given(a.username) || Given(a.password)
  }

  // ---------- the specification ----------

  /** The branches both implementations share, `None` when none of them is taken. */
  function Shared(b: Block, a: Args): Option<(Block, Outcome)> {
    if Given(a.certificate) && UserGiven(a) then Some((b, Failed(Mismatch)))
    else if Given(a.certificate) && (a.mode.None? || a.mode.value.Certificate?) then
      var x509 := X509(a.certificate.value, IfGiven(a.key), IfGiven(a.intermediate));
      Some((Block(Some(Certificate), Some(x509), None), Updated))
    else if UserGiven(a) && (a.mode.None? || a.mode.value.UserPass?) then
      if Given(a.username) && Given(a.password) then
        Some((Block(Some(UserPass), None, Some(Creds(a.username, a.password))), Updated))
      else
        // the stored credentials are edited in place before the check that raises
        var edited := if b.userpass.Some? then Some(Creds(a.username, a.password)) else None;
        Some((Block(Some(UserPass), b.x509, edited), Failed(UserPassRequired)))
    else if a.mode == Some(Anonymous) && !Given(a.certificate) && !UserGiven(a) then
      Some((Block(Some(Anonymous), None, None), Updated))
    else None
  }

  /** What is left when no branch matched: an error if anything was asked for. */
  function Otherwise(b: Block, a: Args): (Block, Outcome) {
    if ModeGiven(a.mode) || Given(a.certificate) || UserGiven(a) then (b, Failed(GeneralMismatch)) else (b, Updated)
  }

  function ProcessSpec(b: Block, a: Args): (Block, Outcome) {
    if (Given(a.key) || Given(a.intermediate)) && !Given(a.certificate) then (b, Failed(CertificateRequired))
    else match Shared(b, a)
      case Some(r) => r
      case None =>
        if !ModeGiven(a.mode) && b == EMPTY then (b.(mode := Some(Anonymous)), Updated) else Otherwise(b, a)
  }

  /** The endpoint-profile implementation takes no key or intermediate references. */
  function ProfileSpec(b: Block, a: Args): (Block, Outcome) {
    match Shared(b, a) case Some(r) => r case None => Otherwise(b, a)
  }

  // ---------- the object updated in place ----------

  class AuthProps {
    var mode: Option<Mode>
    var x509: Option<X509>
    var userpass: Option<Creds>

    function Value(): Block
      reads this
    {
      Block(mode, x509, userpass)
    }

    method SetupCertificate(certificate: string, key: Option<string>, intermediate: Option<string>)
      modifies this
      ensures Value() == Block(Some(Certificate), Some(X509(certificate, IfGiven(key), IfGiven(intermediate))), None)
    {
      mode := Some(Certificate);
      x509 := Some(X509(certificate, IfGiven(key), IfGiven(intermediate)));
      userpass := None;
    }

    method SetupUserPass(username: Option<string>, password: Option<string>) returns (outcome: Outcome)
      modifies this
      ensures outcome == if Given(username) && Given(password) then Updated else Failed(UserPassRequired)
      ensures outcome == Updated ==> Value() == Block(Some(UserPass), None, Some(Creds(username, password)))
      ensures outcome != Updated ==>
                Value() == Block(Some(UserPass), old(x509),
                    if old(userpass).Some? then Some(Creds(username, password)) else None)
    {
      mode := Some(UserPass);
      if userpass.Some? {
        userpass := Some(Creds(username, password));
      }
      if !(Given(username) && Given(password)) {
        return Failed(UserPassRequired);
      }
      userpass := Some(Creds(username, password));
      x509 := None;
      outcome := Updated;
    }

    method SetupAnonymous()
      modifies this
      ensures Value() == Block(Some(Anonymous), None, None)
    {
      mode := Some(Anonymous);
      x509 := None;
      userpass := None;
    }

    method Process(a: Args) returns (outcome: Outcome)
      modifies this
      ensures (Value(), outcome) == ProcessSpec(old(Value()), a)
    {
      if (Given(a.key) || Given(a.intermediate)) && !Given(a.certificate) {
        return Failed(CertificateRequired);
      }
      if Given(a.certificate) && UserGiven(a) {
        return Failed(Mismatch);
      }
      outcome := Updated;
      if Given(a.certificate) && (a.mode.None? || a.mode.value.Certificate?) {
        SetupCertificate(a.certificate.value, a.key, a.intermediate);
      } else if UserGiven(a) && (a.mode.None? || a.mode.value.UserPass?) {
        outcome := SetupUserPass(a.username, a.password);
      } else if a.mode == Some(Anonymous) && !Given(a.certificate) && !UserGiven(a) {
        SetupAnonymous();
      } else if !ModeGiven(a.mode) && Value() == EMPTY {
        mode := Some(Anonymous);
      } else if ModeGiven(a.mode) || Given(a.certificate) || UserGiven(a) {
        outcome := Failed(GeneralMismatch);
      }
    }

    method ProcessProfile(a: Args) returns (outcome: Outcome)
      requires a.key.None? && a.intermediate.None?
      modifies this
      ensures (Value(), outcome) == ProfileSpec(old(Value()), a)
    {
      if Given(a.certificate) && UserGiven(a) {
        return Failed(Mismatch);
      }
      outcome := Updated;
      if Given(a.certificate) && (a.mode.None? || a.mode.value.Certificate?) {
        mode := Some(Certificate);
        x509 := Some(X509(a.certificate.value, None, None));
        userpass := None;
      } else if UserGiven(a) && (a.mode.None? || a.mode.value.UserPass?) {
        outcome := SetupUserPass(a.username, a.password);
      } else if a.mode == Some(Anonymous) && !Given(a.certificate) && !UserGiven(a) {
        SetupAnonymous();
      } else if ModeGiven(a.mode) || Given(a.certificate) || UserGiven(a) {
        outcome := Failed(GeneralMismatch);
      }
    }
  }

  // ---------- consistency over whole sessions ----------

  /** The method names the one credential object present, and the other is absent. */
  predicate Consistent(b: Block) {
    match b.mode
    case Some(Anonymous) => b.x509.None? && b.userpass.None?
    case Some(Certificate) => b.x509.Some? && b.x509.value.certificate != "" && b.userpass.None?
    case Some(UserPass) =>
      b.x509.None? && b.userpass.Some? && Given(b.userpass.value.username) && Given(b.userpass.value.password)
    case _ => false
  }

  predicate Asks(a: Args) {
    ModeGiven(a.mode) || Given(a.certificate) || UserGiven(a)
  }

  /** Whatever the block was, a successful update that asks for anything leaves it consistent. */
  lemma SuccessIsConsistent(b: Block, a: Args)
    requires Asks(a)
    ensures ProcessSpec(b, a).1 == Updated ==> Consistent(ProcessSpec(b, a).0)
    ensures ProfileSpec(b, a).1 == Updated ==> Consistent(ProfileSpec(b, a).0)
  {
  }

  datatype Step = Step(args: Args, profile: bool)

  function Take(b: Block, s: Step): (Block, Outcome) {
    if s.profile then ProfileSpec(b, s.args) else ProcessSpec(b, s.args)
  }

  /** The block after a sequence of updates, if all of them succeed. */
  function Session(b: Block, steps: seq<Step>): Option<Block> {
    if steps == [] then Some(b)
    else
      var n := |steps| - 1;
      match Session(b, steps[..n])
      case None => None
      case Some(mid) => var r := Take(mid, steps[n]); if r.1 == Updated then Some(r.0) else None
  }

  /** Main theorem: any mix of successful updates by either implementation keeps the block
      consistent, from a consistent or empty one; it is empty at the end only if nothing was asked. */
  lemma {:induction false} SessionConsistent(b: Block, steps: seq<Step>)
    requires b == EMPTY || Consistent(b)
    ensures var r := Session(b, steps);
            r.Some? ==> Consistent(r.value) || (r.value == EMPTY && forall s | s in steps :: !Asks(s.args) && s.profile)
  {
    if steps != [] {
      var n := |steps| - 1;
      SessionConsistent(b, steps[..n]);
      assert steps == steps[..n] + [steps[n]];
      if Asks(steps[n].args) && Session(b, steps[..n]).Some? {
        SuccessIsConsistent(Session(b, steps[..n]).value, steps[n].args);
      }
    }
  }

  // ---------- what is stored where ----------

  /** Optional texts, and modes, that Python reads as false. */
  const BLANK: set<Option<string>> := {None, Some("")}
  const NO_MODE: set<Option<Mode>> := {None, Some(OtherMode(""))}

  lemma BlankIff(s: Option<string>)
    ensures s in BLANK <==> !Given(s)
  {
    if s.Some? && s.value == "" { assert s == Some(""); }
  }

  lemma BlankArgs(a: Args)
    ensures a.certificate in BLANK <==> !Given(a.certificate)
    ensures a.key in BLANK <==> !Given(a.key)
    ensures a.intermediate in BLANK <==> !Given(a.intermediate)
    ensures a.username in BLANK <==> !Given(a.username)
    ensures a.password in BLANK <==> !Given(a.password)
    ensures a.mode in NO_MODE <==> !ModeGiven(a.mode)
  {
    BlankIff(a.certificate);
    BlankIff(a.key);
    BlankIff(a.intermediate);
    BlankIff(a.username);
    BlankIff(a.password);
    if a.mode.Some? && a.mode.value == OtherMode("") { assert a.mode == Some(OtherMode("")); }
  }

  lemma AsksIff(a: Args)
    ensures Asks(a) <==> a.mode !in NO_MODE || a.certificate !in BLANK || a.username !in BLANK || a.password !in BLANK
  {
    BlankArgs(a);
  }

  /** The block holds the references of an update, each under its own name, and nothing else. */
  predicate Stores(b: Block, a: Args) {
    if a.certificate !in BLANK then
      && b.mode == Some(Certificate) && b.userpass == None && b.x509.Some?
      && Some(b.x509.value.certificate) == a.certificate
      && b.x509.value.key == (if a.key in BLANK then None else a.key)
      && b.x509.value.intermediate == (if a.intermediate in BLANK then None else a.intermediate)
    else if a.username !in BLANK || a.password !in BLANK then
      && b.mode == Some(UserPass) && b.x509 == None && b.userpass.Some?
      && b.userpass.value.username == a.username && a.username !in BLANK
      && b.userpass.value.password == a.password && a.password !in BLANK
    else a.mode == Some(Anonymous) && b.mode == Some(Anonymous) && b.x509 == None && b.userpass == None
  }

  /** `process_authentication` on an empty block with the empty text as mode: the references are dropped. */
  predicate Dropped(b: Block, s: Step) {
    && !s.profile && b == Block(None, None, None) && s.args.mode == Some(OtherMode(""))
    && (s.args.certificate !in BLANK || s.args.username !in BLANK || s.args.password !in BLANK)
  }

  /** Main theorem: a successful update that asks for anything stores exactly the given references, by field,
      and no others, if and only if they are not dropped; then, and when an empty block is asked for nothing,
      `process_authentication` writes the anonymous method. Any other block asked for nothing is left alone. */
  lemma UpdateStores(b: Block, s: Step)
    requires Take(b, s).1 == Updated
    ensures Asks(s.args) ==> (Stores(Take(b, s).0, s.args) <==> !Dropped(b, s))
    ensures Dropped(b, s) ==> Take(b, s).0 == Block(Some(Anonymous), None, None)
    ensures !Asks(s.args) ==>
              Take(b, s).0
              == if b == Block(None, None, None) && !s.profile then Block(Some(Anonymous), None, None) else b
  {
    BlankArgs(s.args);
  }

  /** The references one by one, for both implementations. */
  lemma FieldsStored(b: Block, a: Args, first: string, second: string)
    requires first != "" && second != "" && a.mode != Some(OtherMode(""))
    ensures a.username == Some(first) && a.password == Some(second) ==>
              forall r | r in {ProcessSpec(b, a), ProfileSpec(b, a)} && r.1 == Updated ::
                && r.0.mode == Some(UserPass) && r.0.x509 == None && r.0.userpass.Some?
                && r.0.userpass.value.username == Some(first) && r.0.userpass.value.password == Some(second)
    ensures a.certificate == Some(first) && a.key == Some(second) && a.intermediate == None ==>
              forall r | r in {ProcessSpec(b, a), ProfileSpec(b, a)} && r.1 == Updated ::
                && r.0.mode == Some(Certificate) && r.0.userpass == None && r.0.x509.Some?
                && r.0.x509.value.certificate == first
                && r.0.x509.value.key == Some(second) && r.0.x509.value.intermediate == None
    ensures a.certificate == Some(first) && a.key == None && a.intermediate == Some(second) ==>
              forall r | r in {ProcessSpec(b, a), ProfileSpec(b, a)} && r.1 == Updated ::
                && r.0.mode == Some(Certificate) && r.0.userpass == None && r.0.x509.Some?
                && r.0.x509.value.certificate == first
                && r.0.x509.value.key == None && r.0.x509.value.intermediate == Some(second)
  {
  }

  /** Main theorem: which update fails, and how; the first test is made by `process_authentication` only. */
  lemma FailsIff(b: Block, s: Step)
    ensures var (a, o) := (s.args, Take(b, s).1);
            var stray := !s.profile && a.certificate in BLANK && (a.key !in BLANK || a.intermediate !in BLANK);
            var user := a.username !in BLANK || a.password !in BLANK;
            var both := a.certificate !in BLANK && user;
            var half := (a.username in BLANK || a.password in BLANK) && a.mode in {None, Some(UserPass)};
            && (o == Failed(CertificateRequired) <==> stray)
            && (o == Failed(Mismatch) <==> !stray && both)
            && (o == Failed(UserPassRequired) <==> !stray && !both && user && half)
            && (o == Failed(GeneralMismatch) <==>
                  && !stray && !both && !Dropped(b, s)
                  && (if a.certificate !in BLANK then a.mode !in {None, Some(Certificate)}
                      else if user then a.mode !in {None, Some(UserPass)}
                      else a.mode !in NO_MODE && a.mode != Some(Anonymous)))
  {
    BlankArgs(s.args);
  }

  /** A failed update changes nothing, or, on half a pair, the method and the stored credentials. */
  lemma FailureLeaves(b: Block, s: Step)
    requires Take(b, s).1 != Updated
    ensures Take(b, s).1 != Failed(UserPassRequired) ==> Take(b, s).0 == b
    ensures var r := Take(b, s).0;
            Take(b, s).1 == Failed(UserPassRequired) ==>
              && r.mode == Some(UserPass) && r.x509 == b.x509 && (r.userpass.Some? <==> b.userpass.Some?)
              && (r.userpass.Some? ==>
                    r.userpass.value.username == s.args.username && r.userpass.value.password == s.args.password)
  {
  }

  /** Main theorem: after a session of successful updates, by either implementation, the block holds the
      references of the last update that asked for anything, if they were not dropped. */
  lemma {:induction false} LastAskedIsStored(b: Block, steps: seq<Step>, i: nat)
    requires Session(b, steps).Some? && i < |steps| && Asks(steps[i].args)
    requires forall j | i < j < |steps| :: !Asks(steps[j].args)
    ensures Session(b, steps[..i]).Some?
    ensures Stores(Session(b, steps).value, steps[i].args) <==> !Dropped(Session(b, steps[..i]).value, steps[i])
  {
    var n := |steps| - 1;
    var mid := Session(b, steps[..n]).value;
    UpdateStores(mid, steps[n]);
    if i < n {
      assert steps[..n][..i] == steps[..i];
      LastAskedIsStored(b, steps[..n], i);
      SessionNotEmpty(b, steps[..n], i);
    }
  }

  /** Something asked for leaves something in the block. */
  lemma {:induction false} SessionNotEmpty(b: Block, steps: seq<Step>, i: nat)
    requires Session(b, steps).Some? && i < |steps| && Asks(steps[i].args)
    ensures Session(b, steps).value != Block(None, None, None)
  {
    var n := |steps| - 1;
    UpdateStores(Session(b, steps[..n]).value, steps[n]);
    if i < n { SessionNotEmpty(b, steps[..n], i); }
  }

  /** And one that asks for nothing throughout leaves a block with anything in it alone. */
  lemma {:induction false} NothingAsked(b: Block, steps: seq<Step>)
    requires b != Block(None, None, None) && forall s | s in steps :: !Asks(s.args)
    requires Session(b, steps).Some?
    ensures Session(b, steps) == Some(b)
  {
    if steps != [] {
      var n := |steps| - 1;
      assert steps[n] in steps;
      NothingAsked(b, steps[..n]);
      UpdateStores(b, steps[n]);
    }
  }

  /** Main theorem: without key or intermediate references the two implementations give the same
      block and outcome, except exactly on an empty block when the mode is the empty text, or
      nothing at all is given, and certificate and user references do not clash. */
  lemma ImplementationsAgree(b: Block, a: Args)
    requires !Given(a.key) && !Given(a.intermediate)
    ensures ProcessSpec(b, a) == ProfileSpec(b, a)
            <==> !(b == EMPTY
                   && (a.mode == Some(OtherMode("")) || (a.mode.None? && !Asks(a)))
                   && !(Given(a.certificate) && UserGiven(a)))
  {
  }

  /** Only one of the two user references is given, in a call that gets as far as storing it. */
  predicate HalfUser(a: Args) {
    && UserGiven(a) && !(Given(a.username) && Given(a.password))
    && !Given(a.certificate) && (a.mode.None? || a.mode.value.UserPass?)
  }

  /** `process_authentication` looks for stray certificate references first. */
  predicate HalfUserStored(a: Args) {
    HalfUser(a) && !Given(a.key) && !Given(a.intermediate)
  }

  /** Main theorem: a failed update leaves a consistent block as it was, and consistent, exactly when it
      does not fail on half a pair of user references: the mode is written before that check. */
  lemma FailureDisturbsIff(b: Block, a: Args)
    requires Consistent(b)
    ensures var r := ProcessSpec(b, a);
            r.1 != Updated ==> (Consistent(r.0) <==> !HalfUserStored(a)) && (r.0 == b <==> !HalfUserStored(a))
    ensures var r := ProfileSpec(b, a);
            r.1 != Updated ==> (Consistent(r.0) <==> !HalfUser(a)) && (r.0 == b <==> !HalfUser(a))
  {
  }

  /** Half a pair always fails, and writes the mode of the pair it does not store. */
  lemma HalfUserFails(b: Block, a: Args)
    ensures HalfUserStored(a) ==>
              ProcessSpec(b, a).1 == Failed(UserPassRequired) && ProcessSpec(b, a).0.mode == Some(UserPass)
    ensures HalfUser(a) ==>
              ProfileSpec(b, a).1 == Failed(UserPassRequired) && ProfileSpec(b, a).0.mode == Some(UserPass)
  {
  }

  predicate Disturbs(s: Step) {
    if s.profile then HalfUser(s.args) else HalfUserStored(s.args)
  }

  /** The block after a sequence of updates whose failures are caught. */
  function Caught(b: Block, steps: seq<Step>): Block {
    if steps == [] then b else Take(Caught(b, steps[..|steps| - 1]), steps[|steps| - 1]).0
  }

  /** Main theorem: a consistent block stays consistent through any updates, failed ones included, as long
      as none is given half a pair; one that is makes it inconsistent there and then. */
  lemma {:induction false} CaughtConsistent(b: Block, steps: seq<Step>)
    requires Consistent(b)
    ensures (forall s | s in steps :: !Disturbs(s)) ==> Consistent(Caught(b, steps))
    ensures steps != [] && Disturbs(steps[|steps| - 1]) ==> !Consistent(Caught(b, steps))
  {
    if steps != [] {
      var n := |steps| - 1;
      var before, last := Caught(b, steps[..n]), steps[n];
      CaughtConsistent(b, steps[..n]);
      assert steps == steps[..n] + [last];
      TakeConsistent(before, last);
    }
  }

  /** Half a pair spoils any block; anything else keeps a consistent one consistent. */
  lemma TakeConsistent(b: Block, s: Step)
    ensures Disturbs(s) ==> !Consistent(Take(b, s).0)
    ensures !Disturbs(s) && Consistent(b) ==> Consistent(Take(b, s).0)
  {
  }

  /** An input: a certificate block given a user name and no password. */
  lemma FailureMayDisturb(b: Block, username: string)
    requires b.mode == Some(Certificate) && Consistent(b) && username != ""
    ensures var a := Args(Some(UserPass), None, None, None, Some(username), None);
            ProcessSpec(b, a).1 == Failed(UserPassRequired) && !Consistent(ProcessSpec(b, a).0)
  {
  }
}
