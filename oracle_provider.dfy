/** The decision logic of `OraclePlantDataProvider`: script execution over one
    connection, the identity-sequence rule, database creation with its bounded
    re-connection loop, the connection-string template and the naming
    conventions for foreign keys and indexes. The database itself is abstract:
    a connection records the commands sent to it and is given which of them
    the database refuses; query results and existence probes are parameters. */
module OracleProvider {
  import opened Text
  import ScriptBatching

  /** Why an operation ended in an exception: a null argument, or a query the
      database could not answer. */
  datatype ProviderError = ArgumentNull(paramName: string) | QueryFailed(query: string)

  datatype Result<T> = Success(value: T) | Failure(error: ProviderError)

  /** How a run of commands ended: all done, or stopped by the exception of
      the named command or query (nothing after it is sent). */
  datatype ExecOutcome = Completed | Failed(command: string)

  /** One open database connection. `executed` is every command sent to it,
      in order. `refuses(done, command)` says whether the database throws on
      `command` after the commands `done` have been sent, so a text that runs
      once may fail the next time (a second insert of the same key). */
  class DataConnection {
    var executed: seq<string>
    const refuses: (seq<string>, string) -> bool

    constructor (refuses: (seq<string>, string) -> bool)
      ensures executed == [] && this.refuses == refuses
    {
      executed := [];
      this.refuses := refuses;
    }

    /** `DataConnection.Execute(command)`: sends the command; false stands for the exception. */
    method Execute(command: string) returns (ok: bool)
      modifies this
      ensures executed == old(executed) + [command]
      ensures ok <==> !refuses(old(executed), command)
    {
      ok := !refuses(executed, command);
      executed := executed + [command];
    }
  }

  // ---------------------------------------------------------------------
  // ExecuteSqlScript

  /** Whether command k of cmds is refused when it is sent after `done` and
      the commands before it. */
  predicate RefusedAt(refuses: (seq<string>, string) -> bool, done: seq<string>, cmds: seq<string>, k: nat)
    requires k < |cmds|
  {
    refuses(done + cmds[..k], cmds[k])
  }

  /** The commands a connection that already ran `done` receives when cmds
      are sent one by one and the first refused one ends the run: every
      command up to and including the first refused one. */
  function Attempted(refuses: (seq<string>, string) -> bool, done: seq<string>, cmds: seq<string>): (r: seq<string>)
    ensures |r| <= |cmds| && r == cmds[..|r|]
    ensures forall k :: 0 <= k < |r| - 1 ==> !RefusedAt(refuses, done, cmds, k)
    ensures |r| < |cmds| ==> |r| > 0 && RefusedAt(refuses, done, cmds, |r| - 1)
    ensures (forall k :: 0 <= k < |cmds| ==> !RefusedAt(refuses, done, cmds, k)) ==> r == cmds
    decreases |cmds|
  {
    if |cmds| == 0 then []
    else if refuses(done, cmds[0]) then
      assert done + cmds[..0] == done;
      assert RefusedAt(refuses, done, cmds, 0);
      [cmds[0]]
    else
      var tail := Attempted(refuses, done + [cmds[0]], cmds[1..]);
      ShiftRefused(refuses, done, cmds);
      [cmds[0]] + tail
  }

  /** Sending cmds after `done` is sending cmds[1..] after `done + [cmds[0]]`. */
  lemma ShiftRefused(refuses: (seq<string>, string) -> bool, done: seq<string>, cmds: seq<string>)
    requires |cmds| > 0
    ensures RefusedAt(refuses, done, cmds, 0) == refuses(done, cmds[0])
    ensures forall k :: 1 <= k < |cmds| ==>
      RefusedAt(refuses, done, cmds, k) == RefusedAt(refuses, done + [cmds[0]], cmds[1..], k - 1)
  {
    assert done + cmds[..0] == done;
    forall k | 1 <= k < |cmds|
      ensures RefusedAt(refuses, done, cmds, k) == RefusedAt(refuses, done + [cmds[0]], cmds[1..], k - 1)
    {
      assert done + cmds[..k] == done + [cmds[0]] + cmds[1..][..k - 1];
    }
  }

  /** When the first refused command is at k (or there is none and k = |cmds|),
      the attempted commands are those up to k. */
  lemma {:induction false} AttemptedUpTo(refuses: (seq<string>, string) -> bool, done: seq<string>, cmds: seq<string>, k: nat)
    requires k <= |cmds|
    requires forall m :: 0 <= m < k ==> !RefusedAt(refuses, done, cmds, m)
    requires k < |cmds| ==> RefusedAt(refuses, done, cmds, k)
    ensures Attempted(refuses, done, cmds) == if k == |cmds| then cmds else cmds[..k + 1]
  {
    var r := Attempted(refuses, done, cmds);
    if k < |cmds| {
      assert |r| == k + 1;
    } else {
      assert r == cmds;
    }
  }

  /** A run stopped by the refusal at k has sent the commands up to k, the
      last of them refused. */
  lemma RefusalStops(refuses: (seq<string>, string) -> bool, done: seq<string>, cmds: seq<string>, k: nat)
    requires k < |cmds|
    requires forall m :: 0 <= m < k ==> !RefusedAt(refuses, done, cmds, m)
    requires RefusedAt(refuses, done, cmds, k)
    ensures var sent := Attempted(refuses, done, cmds);
      && done + cmds[..k] + [cmds[k]] == done + sent
      && |sent| == k + 1 && sent[|sent| - 1] == cmds[k]
      && RefusedAt(refuses, done, cmds, |sent| - 1)
  {
    AttemptedUpTo(refuses, done, cmds, k);
    assert cmds[..k] + [cmds[k]] == cmds[..k + 1];
  }

  /** A run that met no refusal has sent every command. */
  lemma RunsToEnd(refuses: (seq<string>, string) -> bool, done: seq<string>, cmds: seq<string>)
    requires forall m :: 0 <= m < |cmds| ==> !RefusedAt(refuses, done, cmds, m)
    ensures done + cmds[..|cmds|] == done + Attempted(refuses, done, cmds)
  {
    AttemptedUpTo(refuses, done, cmds, |cmds|);
    assert cmds[..|cmds|] == cmds;
  }

  lemma TakeSnoc(s: seq<string>, k: nat)
    requires k < |s|
    ensures s[..k] + [s[k]] == s[..k + 1]
  {
  }

  /** The `foreach` of `ExecuteSqlScript`: the commands in order on the one
      connection; the first refused command stops the run and is reported. */
  method SendCommands(connection: DataConnection, commands: seq<string>) returns (outcome: ExecOutcome)
    modifies connection
    ensures var sent := Attempted(connection.refuses, old(connection.executed), commands);
      && connection.executed == old(connection.executed) + sent
      && (outcome.Completed? <==> forall k :: 0 <= k < |commands| ==> !RefusedAt(connection.refuses, old(connection.executed), commands, k))
      && (outcome.Failed? ==>
            (|sent| > 0 && outcome.command == sent[|sent| - 1]
             && RefusedAt(connection.refuses, old(connection.executed), commands, |sent| - 1)))
  {
    ghost var done := connection.executed;
    var k := 0;
    while k < |commands|
      invariant 0 <= k <= |commands|
      invariant connection.executed == done + commands[..k]
      invariant forall m :: 0 <= m < k ==> !RefusedAt(connection.refuses, done, commands, m)
    {
      var ok := connection.Execute(commands[k]);
      if !ok {
        RefusalStops(connection.refuses, done, commands, k);
        return Failed(commands[k]);
      }
      TakeSnoc(commands, k);
      k := k + 1;
    }
    RunsToEnd(connection.refuses, done, commands);
    outcome := Completed;
  }

  /** `ExecuteSqlScript`: the script's commands, in the order
      `GetCommandsFromScript` returns them, all on the one connection; the
      first refused command stops the run and is reported. */
  method ExecuteSqlScript(connection: DataConnection, sql: string, split: string -> seq<string>, newLine: string)
    returns (outcome: ExecOutcome)
    modifies connection
    ensures var cmds := ScriptBatching.BatchCommands(split(ScriptBatching.StripContinuations(sql)), newLine);
      var sent := Attempted(connection.refuses, old(connection.executed), cmds);
      && connection.executed == old(connection.executed) + sent
      && (outcome.Completed? <==> forall k :: 0 <= k < |cmds| ==> !RefusedAt(connection.refuses, old(connection.executed), cmds, k))
      && (outcome.Failed? ==>
            (|sent| > 0 && outcome.command == sent[|sent| - 1]
             && RefusedAt(connection.refuses, old(connection.executed), cmds, |sent| - 1)))
  {
    var commands := ScriptBatching.GetCommandsFromScript(sql, split, newLine);
    outcome := SendCommands(connection, commands);
  }

  // ---------------------------------------------------------------------
  // Identity sequences

  /** The query GetTableIdent sends for a table: the table name stands in
      quotes right after `SIDENTITY_`. */
  function IdentityQuery(tableName: string): (q: string)
    ensures |q| > 18 + |tableName| && q[17] == '\'' && q[18 + |tableName|] == '\''
    ensures q[..17] == "SELECT SIDENTITY_" && q[18..18 + |tableName|] == tableName
    ensures q[18 + |tableName|..] == "'.NEXTVAL as Value from DUAL"
  {
    "SELECT SIDENTITY_" + ("'" + (tableName + "'.NEXTVAL as Value from DUAL"))
  }

  /** The command SetTableIdent sends for a table: the sequence is named
      `SIDENTITY_` followed by the table name, without quotes, and gets no
      start value. */
  function CreateSequenceCommand(tableName: string): (c: string)
    ensures |c| == 26 + |tableName|
    ensures c[..26] == "CREATE SEQUENCE SIDENTITY_" && c[26..] == tableName
  {
    "CREATE SEQUENCE SIDENTITY_" + tableName
  }

  /** `GetTableIdent`: the first value the identity query returns, or 1 when it
      returns none; a query that throws is the failure. `nextValue` stands for
      the database's answer. A successful result is never absent, although
      the declared type allows it. */
  function GetTableIdent(tableName: string, nextValue: string -> Result<Option<int>>): (r: Result<Option<int>>)
    ensures r.Failure? <==> nextValue(IdentityQuery(tableName)).Failure?
    ensures r.Failure? ==> r == nextValue(IdentityQuery(tableName))
    ensures r.Success? ==> r.value.Some?
    ensures nextValue(IdentityQuery(tableName)).Success? && nextValue(IdentityQuery(tableName)).value.Some?
      ==> r == nextValue(IdentityQuery(tableName))
    ensures nextValue(IdentityQuery(tableName)) == Success(None) ==> r == Success(Some(1))
  {
    match nextValue(IdentityQuery(tableName))
    case Failure(e) => Failure(e)
    case Success(Some(v)) => Success(Some(v))
    case Success(None) => Success(Some(1))
  }

  /** The commands SetTableIdent sends: one CREATE SEQUENCE when the current
      identity could be read and the requested one is above it, nothing
      otherwise. */
  function IdentCommands(tableName: string, ident: int, nextValue: string -> Result<Option<int>>): (r: seq<string>)
    ensures |r| <= 1
    ensures r != [] <==> GetTableIdent(tableName, nextValue).Success? && ident > GetTableIdent(tableName, nextValue).value.value
    ensures r != [] ==> r == [CreateSequenceCommand(tableName)]
  {
    var current := GetTableIdent(tableName, nextValue);
    if current.Failure? || current.value.None? || ident <= current.value.value then []
    else [CreateSequenceCommand(tableName)]
  }

  /** Whatever the current identity, a request at or below it sends nothing:
      an identity is never lowered. */
  lemma IdentNeverLowered(tableName: string, ident: int, nextValue: string -> Result<Option<int>>, current: int)
    requires nextValue(IdentityQuery(tableName)) == Success(Some(current))
    requires ident <= current
    ensures IdentCommands(tableName, ident, nextValue) == []
  {
  }

  /** Without a sequence value the current identity counts as 1: only a
      request above 1 creates the sequence. */
  lemma IdentWithoutSequence(tableName: string, ident: int, nextValue: string -> Result<Option<int>>)
    requires nextValue(IdentityQuery(tableName)) == Success(None)
    ensures IdentCommands(tableName, ident, nextValue) != [] <==> ident > 1
  {
  }

  /** A failing identity query sends nothing, whatever the request. */
  lemma IdentQueryFailure(tableName: string, ident: int, nextValue: string -> Result<Option<int>>)
    requires nextValue(IdentityQuery(tableName)).Failure?
    ensures IdentCommands(tableName, ident, nextValue) == []
  {
  }

  /** A database that throws on every query: GetTableIdent reports the
      identity query as the one that failed. */
  lemma EveryQueryFails(tableName: string)
    ensures GetTableIdent(tableName, q => Failure(QueryFailed(q))) == Failure(QueryFailed(IdentityQuery(tableName)))
  {
  }

  /** `SetTableIdent`: reads the current identity and recreates the sequence
      only for a larger requested value. The exception of the identity query
      ends it before anything is sent. */
  method SetTableIdent(connection: DataConnection, tableName: string, ident: int,
                       nextValue: string -> Result<Option<int>>)
    returns (outcome: ExecOutcome)
    modifies connection
    ensures connection.executed == old(connection.executed) + IdentCommands(tableName, ident, nextValue)
    ensures GetTableIdent(tableName, nextValue).Failure? ==> outcome == Failed(IdentityQuery(tableName))
    ensures GetTableIdent(tableName, nextValue).Success? ==>
      (outcome.Failed? <==>
         (IdentCommands(tableName, ident, nextValue) != []
          && connection.refuses(old(connection.executed), CreateSequenceCommand(tableName))))
    ensures GetTableIdent(tableName, nextValue).Success? && outcome.Failed? ==>
      outcome.command == CreateSequenceCommand(tableName)
  {
    var currentIdent := GetTableIdent(tableName, nextValue);
    if currentIdent.Failure? {
      return Failed(IdentityQuery(tableName));
    }
    if currentIdent.value.None? || ident <= currentIdent.value.value {
      return Completed;
    }
    var command := CreateSequenceCommand(tableName);
    var ok := connection.Execute(command);
    outcome := if ok then Completed else Failed(command);
  }

  // ---------------------------------------------------------------------
  // CreateDatabase

  /** The CREATE DATABASE statement, with a collation clause only for a non-blank collation. */
  function CreateDatabaseQuery(databaseName: string, collation: string): (q: string)
    ensures var head := "CREATE DATABASE [" + databaseName + "]";
      && |head| <= |q| && q[..|head|] == head
      && (IsBlank(collation) <==> q == head)
      && (!IsBlank(collation) ==> q[|head|..] == " COLLATE " + collation)
  {
    var query := "CREATE DATABASE [" + databaseName + "]";
    if !IsBlank(collation) then query + " COLLATE " + collation else query
  }

  /** What CreateDatabase did: nothing (the database was there), created it and
      then saw it after `probes` successful-or-not re-checks with `sleeps`
      one-second pauses, or created it and gave up (the exception). */
  datatype CreateResult =
    | AlreadyExists
    | Created(query: string, probes: nat, sleeps: nat)
    | Unreachable(query: string, sleeps: nat)

  /** `CreateDatabase`. `probe(0)` is the first `IsDatabaseExists()` answer,
      `probe(k)` the answer to the k-th re-check after creation. */
  method CreateDatabase(databaseName: string, collation: string, triesToConnect: int, probe: nat -> bool)
    returns (r: CreateResult)
    ensures probe(0) <==> r == AlreadyExists
    ensures !probe(0) ==> r.query == CreateDatabaseQuery(databaseName, collation)
    ensures !probe(0) && triesToConnect <= 0 ==> r == Created(CreateDatabaseQuery(databaseName, collation), 0, 0)
    ensures r.Created? && triesToConnect > 0 ==>
      && 1 <= r.probes <= triesToConnect && probe(r.probes)
      && (forall k :: 1 <= k < r.probes ==> !probe(k))
      && r.sleeps == r.probes - 1
    ensures r.Unreachable? <==> !probe(0) && triesToConnect > 0 && forall k :: 1 <= k <= triesToConnect ==> !probe(k)
    ensures r.Unreachable? ==> r.sleeps == triesToConnect
  {
    if probe(0) {
      return AlreadyExists;
    }
    var query := CreateDatabaseQuery(databaseName, collation);
    if triesToConnect <= 0 {
      return Created(query, 0, 0);
    }
    // The source loops up to i == triesToConnect and throws in that last
    // round; here the loop stops one round earlier and the throw follows it.
    var sleeps := 0;
    var i := 0;
    while i < triesToConnect
      invariant 0 <= i <= triesToConnect
      invariant sleeps == i
      invariant forall k :: 1 <= k <= i ==> !probe(k)
    {
      if !probe(i + 1) {
        sleeps := sleeps + 1;   // Thread.Sleep(1000)
      } else {
        return Created(query, i + 1, sleeps);
      }
      i := i + 1;
    }
    r := Unreachable(query, sleeps);
  }

  // ---------------------------------------------------------------------
  // Connection string

  datatype ConnectionInfo = ConnectionInfo(serverName: string, port: int, username: string, password: string)

  const HostPrefix: string := "Data Source=(DESCRIPTION =(ADDRESS = (PROTOCOL = TCP)(HOST = "
  const PortInfix: string := ")(PORT = "
  // The first ')' closes the PORT clause.
  const UserInfix: string := ")" + ")(CONNECT_DATA =(SERVER = DEDICATED)(SERVICE_NAME = orcl.QIS.local)));User Id="
  const PasswordInfix: string := ";Password="

  /** `BuildConnectionString`: an absent info is an argument error; otherwise
      the fixed template with server, port, user and password filled in, in
      that order. */
  function BuildConnectionString(con: Option<ConnectionInfo>): (r: Result<string>)
    ensures con.None? <==> r == Failure(ArgumentNull("con"))
    ensures con.Some? ==> r.Success? && |HostPrefix| <= |r.value| && r.value[..|HostPrefix|] == HostPrefix
    ensures con.Some? ==> r.Success? && r.value[|r.value| - 1] == ';'
  {
    match con
    case None => Failure(ArgumentNull("con"))
    case Some(c) =>
      Success(HostPrefix + (c.serverName + (PortInfix + (IntString(c.port)
              + (UserInfix + (c.username + (PasswordInfix + (c.password + ";"))))))))
  }

  /** A field that does not contain stop and is followed by stop is read back by TakeUntil. */
  lemma FieldReadBack(field: string, stop: char, post: string)
    requires forall i :: 0 <= i < |field| ==> field[i] != stop
    requires |post| > 0 && post[0] == stop
    ensures TakeUntil(field + post, stop) == field
  {
    assert field + post == field + [stop] + post[1..];
    TakeUntilField(field, stop, post[1..]);
  }

  /** A field between pre and a post that starts with stop is read back from
      where pre ends. */
  lemma FieldAfter(s: string, at: nat, pre: string, field: string, post: string, stop: char)
    requires s == pre + (field + post) && at == |pre|
    requires forall i :: 0 <= i < |field| ==> field[i] != stop
    requires |post| > 0 && post[0] == stop
    ensures at <= |s| && TakeUntil(s[at..], stop) == field
  {
    assert s[at..] == field + post;
    FieldReadBack(field, stop, post);
  }

  lemma Assoc(a: string, b: string, c: string)
    ensures a + (b + c) == (a + b) + c
  {
  }

  /** The last field before the final ';', after a part p, standing at `at`. */
  lemma LastField(s: string, at: nat, front: string, p: string, field: string)
    requires s == front + (p + (field + ";")) && at == |front| + |p|
    ensures at == |s| - 1 - |field|
    ensures at >= |p| && s[at - |p|..] == p + (field + ";")
    ensures s[at..] == field + ";"
  {
    assert s[|front|..] == p + (field + ";");
    assert s[at..] == s[|front|..][|p|..];
  }

  /** The four fields of any text of the template's shape: p0, host, p1
      (starting with ')'), the port text, p2 (starting with ')'), user, p3
      (starting with ';'), password, ";". */
  lemma TemplateReadBack(s: string, p0: string, host: string, p1: string, pt: string, p2: string,
                         user: string, p3: string, pwd: string, portAt: nat, userAt: nat)
    requires portAt == |p0| + |host| + |p1|
    requires userAt == portAt + |pt| + |p2|
    requires s == p0 + (host + (p1 + (pt + (p2 + (user + (p3 + (pwd + ";")))))))
    requires forall i :: 0 <= i < |host| ==> host[i] != ')'
    requires forall i :: 0 <= i < |pt| ==> pt[i] != ')'
    requires forall i :: 0 <= i < |user| ==> user[i] != ';'
    requires |p1| > 0 && p1[0] == ')'
    requires |p2| > 0 && p2[0] == ')'
    requires |p3| > 0 && p3[0] == ';'
    ensures |p0| <= |s| && TakeUntil(s[|p0|..], ')') == host
    ensures portAt <= |s| && TakeUntil(s[portAt..], ')') == pt
    ensures userAt <= |s| && TakeUntil(s[userAt..], ';') == user
  {
    var tail := p3 + (pwd + ";");
    var r2 := p2 + (user + tail);
    FieldAfter(s, |p0|, p0, host, p1 + (pt + r2), ')');
    var mid := p0 + (host + p1);
    assert s == mid + (pt + r2) by {
      Assoc(host, p1, pt + r2);
      Assoc(p0, host + p1, pt + r2);
    }
    FieldAfter(s, portAt, mid, pt, r2, ')');
    var front := mid + pt;
    assert s == front + r2 by {
      Assoc(mid, pt, r2);
    }
    var upto := front + p2;
    assert s == upto + (user + tail) by {
      Assoc(front, p2, user + tail);
    }
    FieldAfter(s, userAt, upto, user, tail, ';');
  }

  /** In the same template ";Password=" starts at infixAt and the password
      follows it up to the final ';'. */
  lemma TemplatePassword(s: string, p0: string, host: string, p1: string, pt: string, p2: string,
                         user: string, p3: string, pwd: string, infixAt: nat, pwdAt: nat)
    requires infixAt == |p0| + |host| + |p1| + |pt| + |p2| + |user| && pwdAt == infixAt + |p3|
    requires s == p0 + (host + (p1 + (pt + (p2 + (user + (p3 + (pwd + ";")))))))
    ensures pwdAt == |s| - 1 - |pwd|
    ensures infixAt <= |s| && s[infixAt..] == p3 + (pwd + ";")
    ensures s[pwdAt..] == pwd + ";"
  {
    var tail := p3 + (pwd + ";");
    var front := p0 + host + p1 + pt + p2 + user;
    assert s == front + tail by {
      Assoc(p2, user, tail);
      Assoc(pt, p2 + user, tail);
      Assoc(p1, pt + (p2 + user), tail);
      Assoc(host, p1 + (pt + (p2 + user)), tail);
      Assoc(p0, host + (p1 + (pt + (p2 + user))), tail);
      assert front == p0 + (host + (p1 + (pt + (p2 + user)))) by {
        Assoc(pt, p2, user);
        Assoc(p1, pt, p2 + user);
        Assoc(host, p1 + pt, p2 + user);
        Assoc(p0, host + (p1 + pt), p2 + user);
        Assoc(p1, pt, p2);
        Assoc(host, p1, pt);
        Assoc(p0, host, p1);
      }
    }
    LastField(s, pwdAt, front, p3, pwd);
  }

  /** A number written in decimal after a digit-free p1 and before a
      non-digit is the first digit run after the host. */
  lemma PortDigitsReadBack(s: string, p0: string, host: string, p1: string, pt: string, n: nat, rest: string)
    requires s == p0 + (host + (p1 + (pt + rest))) && pt == DecimalDigits(n)
    requires forall i :: 0 <= i < |p1| ==> !IsDigit(p1[i])
    requires |rest| > 0 && !IsDigit(rest[0])
    ensures FirstDigitRun(s[|p0| + |host|..]) == Some(n)
  {
    assert s[|p0| + |host|..] == p1 + DecimalDigits(n) + rest;
    FirstDigitRunOfDecimal(p1, n, rest);
  }

  /** The template's infixes begin with the delimiter that ends the field
      before them, and the one before the port has no digit. */
  lemma InfixDelimiters()
    ensures PortInfix[0] == ')' && UserInfix[0] == ')' && PasswordInfix[0] == ';'
    ensures forall i :: 0 <= i < |PortInfix| ==> !IsDigit(PortInfix[i])
  {
  }

  /** Where the port, the user name and the password start in the connection string of c. */
  function PortFieldAt(c: ConnectionInfo): nat {
    |HostPrefix| + |c.serverName| + |PortInfix|
  }

  function UserFieldAt(c: ConnectionInfo): nat {
    PortFieldAt(c) + |IntString(c.port)| + |UserInfix|
  }

  function PasswordInfixAt(c: ConnectionInfo): nat {
    UserFieldAt(c) + |c.username|
  }

  function PasswordFieldAt(c: ConnectionInfo): nat {
    PasswordInfixAt(c) + |PasswordInfix|
  }

  /** The fields can be read back from the text: the host up to the first ')',
      the port text up to the next ')', the user up to the next ';' after
      "User Id=", and the password between ";Password=" and the final ';'.
      So the connection string determines its fields. */
  lemma ConnectionStringFields(c: ConnectionInfo)
    requires forall i :: 0 <= i < |c.serverName| ==> c.serverName[i] != ')'
    requires forall i :: 0 <= i < |c.username| ==> c.username[i] != ';'
    ensures TakeUntil(BuildConnectionString(Some(c)).value[|HostPrefix|..], ')') == c.serverName
    ensures PortFieldAt(c) <= |BuildConnectionString(Some(c)).value|
    ensures TakeUntil(BuildConnectionString(Some(c)).value[PortFieldAt(c)..], ')') == IntString(c.port)
    ensures UserFieldAt(c) <= |BuildConnectionString(Some(c)).value|
    ensures TakeUntil(BuildConnectionString(Some(c)).value[UserFieldAt(c)..], ';') == c.username
  {
    var pt := IntString(c.port);
    InfixDelimiters();
    assert forall i :: 0 <= i < |pt| ==> pt[i] != ')' by {
      assert forall i :: 0 <= i < |pt| ==> IsDigit(pt[i]) || pt[i] == '-';
    }
    TemplateReadBack(BuildConnectionString(Some(c)).value, HostPrefix, c.serverName, PortInfix, pt,
                     UserInfix, c.username, PasswordInfix, c.password, PortFieldAt(c), UserFieldAt(c));
  }

  /** The password sits between ";Password=" and the final ';'. */
  lemma ConnectionStringPassword(c: ConnectionInfo)
    ensures PasswordFieldAt(c) == |BuildConnectionString(Some(c)).value| - 1 - |c.password|
    ensures PasswordInfixAt(c) <= |BuildConnectionString(Some(c)).value|
    ensures BuildConnectionString(Some(c)).value[PasswordInfixAt(c)..] == PasswordInfix + (c.password + ";")
    ensures BuildConnectionString(Some(c)).value[PasswordFieldAt(c)..] == c.password + ";"
  {
    TemplatePassword(BuildConnectionString(Some(c)).value, HostPrefix, c.serverName, PortInfix, IntString(c.port),
                     UserInfix, c.username, PasswordInfix, c.password, PasswordInfixAt(c), PasswordFieldAt(c));
  }

  /** A non-negative port is also the first run of digits after the host. */
  lemma ConnectionStringPortDigits(c: ConnectionInfo)
    requires c.port >= 0
    ensures FirstDigitRun(BuildConnectionString(Some(c)).value[|HostPrefix| + |c.serverName|..]) == Some(c.port)
  {
    InfixDelimiters();
    PortDigitsReadBack(BuildConnectionString(Some(c)).value, HostPrefix, c.serverName, PortInfix, IntString(c.port), c.port,
                       UserInfix + (c.username + (PasswordInfix + (c.password + ";"))));
  }

  // ---------------------------------------------------------------------
  // Naming conventions

  /** `GetForeignKeyName`: "FK_", the foreign table, "_", then the foreign
      column, "_", the primary table and the primary column, with one more "_"
      before the primary column in the long form. */
  function GetForeignKeyName(foreignTable: string, foreignColumn: string, primaryTable: string,
                             primaryColumn: string, isShort: bool): (r: string)
    ensures var head := "FK_" + foreignTable + "_" + foreignColumn + "_" + primaryTable;
      && |r| == |head| + (if isShort then 0 else 1) + |primaryColumn|
      && r[..|head|] == head
      && r[|r| - |primaryColumn|..] == primaryColumn
      && (!isShort ==> r[|head|] == '_')
  {
    var sb := "FK_" + foreignTable + "_";
    sb + (if isShort then foreignColumn + "_" + primaryTable + primaryColumn
          else foreignColumn + "_" + primaryTable + "_" + primaryColumn)
  }

  /** The long form is the short form with "_" inserted before the primary column. */
  lemma ForeignKeyLongForm(foreignTable: string, foreignColumn: string, primaryTable: string, primaryColumn: string)
    ensures var short := GetForeignKeyName(foreignTable, foreignColumn, primaryTable, primaryColumn, true);
      var k := |short| - |primaryColumn|;
      0 <= k <= |short| &&
      GetForeignKeyName(foreignTable, foreignColumn, primaryTable, primaryColumn, false) == short[..k] + "_" + short[k..]
  {
    var head := "FK_" + foreignTable + "_" + foreignColumn + "_" + primaryTable;
    var short := GetForeignKeyName(foreignTable, foreignColumn, primaryTable, primaryColumn, true);
    assert short == head + primaryColumn;
    assert short[..|head|] == head && short[|head|..] == primaryColumn;
  }

  lemma ForeignKeyShortExample()
    ensures GetForeignKeyName("Orders", "CustomerId", "Customers", "Id", true) == "FK_Orders_CustomerId_CustomersId"
  {
  }

  lemma ForeignKeyLongExample()
    ensures GetForeignKeyName("Orders", "CustomerId", "Customers", "Id", false) == "FK_Orders_CustomerId_Customers_Id"
  {
  }

  /** `GetIndexName`: "IX_", the table, "_", the column; `isShort` is accepted and ignored. */
  function GetIndexName(targetTable: string, targetColumn: string, isShort: bool): (r: string)
    ensures |r| == 4 + |targetTable| + |targetColumn|
    ensures r[..3] == "IX_" && r[3 + |targetTable|] == '_'
  {
    "IX_" + targetTable + "_" + targetColumn
  }

  lemma IndexNameIgnoresForm(targetTable: string, targetColumn: string)
    ensures GetIndexName(targetTable, targetColumn, true) == GetIndexName(targetTable, targetColumn, false)
    ensures GetIndexName(targetTable, targetColumn, true)[3..3 + |targetTable|] == targetTable
    ensures GetIndexName(targetTable, targetColumn, true)[4 + |targetTable|..] == targetColumn
  {
  }

  lemma IndexNameExample()
    ensures GetIndexName("Orders", "CustomerId", true) == "IX_Orders_CustomerId"
    ensures GetIndexName("Orders", "CustomerId", false) == "IX_Orders_CustomerId"
  {
  }
}
