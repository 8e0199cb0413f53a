/**
 The SQL that creates a user and grants it permissions: templates with `?` marks and their arguments,
 composed statement by statement, and what they render to.
 */
module SqlTemplate {
  import opened GoStrings
  import opened SqlEscape

  /** A template and its positional arguments. */
  datatype Query = Query(text: string, args: seq<string>)

  datatype Permission = Permission(database: string, tables: seq<string>, privileges: seq<string>)

  datatype UserSpec = UserSpec(user: string, hosts: seq<string>, permissions: seq<Permission>,
                               withGrant: bool, tls: string)

  // Rendering.

  /** The number of placeholders. */
  function Marks(text: string): nat {
    if text == "" then 0 else (if text[0] == '?' then 1 else 0) + Marks(text[1..])
  }

  function Literal(arg: string): string {
    "'" + EscapeOf(arg) + "'"
  }

  /** Replaces the placeholders by the arguments as literals; None if the numbers differ. */
  function Render(text: string, args: seq<string>): Option<string> {
    if text == "" then if args == [] then Some("") else None
    else if text[0] == '?' then
      if args == [] then None
      else
        var rest := Render(text[1..], args[1..]);
        if rest.None? then None else Some(Literal(args[0]) + rest.value)
    else
      var rest := Render(text[1..], args);
      if rest.None? then None else Some([text[0]] + rest.value)
  }

  lemma {:induction false} RenderExists(text: string, args: seq<string>)
    ensures Render(text, args).Some? <==> Marks(text) == |args|
  {
    if text != "" {
      if text[0] != '?' {
        RenderExists(text[1..], args);
      } else if args != [] {
        RenderExists(text[1..], args[1..]);
      }
    }
  }

  lemma {:induction false} MarksConcat(a: string, b: string)
    ensures Marks(a + b) == Marks(a) + Marks(b)
  {
    if a == "" {
      assert a + b == b;
    } else {
      MarksConcat(a[1..], b);
      assert (a + b)[1..] == a[1..] + b;
    }
  }

  /** One character at a time. */
  lemma RenderCons(c: char, rest: string, args: seq<string>)
    requires c == '?' ==> args != []
    ensures var r := Render(rest, if c == '?' then args[1..] else args);
            Render([c] + rest, args) ==
            if r.None? then None else Some((if c == '?' then Literal(args[0]) else [c]) + r.value)
  {
    assert ([c] + rest)[1..] == rest;
  }

  lemma {:induction false} RenderConcat(a: string, x: seq<string>, b: string, y: seq<string>)
    requires Render(a, x).Some? && Render(b, y).Some?
    ensures Render(a + b, x + y) == Some(Render(a, x).value + Render(b, y).value)
  {
    if a == "" {
      assert a + b == b && x + y == y;
      assert "" + Render(b, y).value == Render(b, y).value;
    } else {
      assert a[0] == '?' ==> x != [];
      hide Render, Literal;
      var c, rest := a[0], a[1..];
      assert a == [c] + rest && a + b == [c] + (rest + b);
      var x' := if c == '?' then x[1..] else x;
      assert c == '?' ==> (x + y)[1..] == x' + y && (x + y)[0] == x[0];
      RenderCons(c, rest, x);
      RenderConcat(rest, x', b, y);
      RenderCons(c, rest + b, x + y);
      var head := if c == '?' then Literal(x[0]) else [c];
      AppendAssociates(head, Render(rest, x').value, Render(b, y).value);
    }
  }

  lemma {:induction false} RenderPlain(text: string)
    ensures Marks(text) == 0 ==> Render(text, []) == Some(text)
  {
    if text != "" {
      RenderPlain(text[1..]);
      assert text == [text[0]] + text[1..];
    }
  }

  // Queries.

  predicate HasSuffix(s: string, c: char) {
    s != "" && s[|s| - 1] == c
  }

  function Terminated(text: string): string {
    if HasSuffix(text, ';') then text else text + ";"
  }

  function NewQuery(text: string, args: seq<string>): Query {
    Query(Terminated(text), args)
  }

  /** Terminating a template terminates what it renders to. */
  lemma {:induction false} RenderTerminated(text: string, args: seq<string>)
    requires Render(text, args).Some?
    ensures Render(Terminated(text), args) == Some(Terminated(Render(text, args).value))
  {
    RenderPlain(";");
    RenderConcat(text, args, ";", []);
    assert args + [] == args;
    LastCharacter(text, args);
  }

  lemma {:induction false} LastCharacter(text: string, args: seq<string>)
    requires Render(text, args).Some?
    ensures HasSuffix(text, ';') <==> HasSuffix(Render(text, args).value, ';')
  {
    if |text| == 1 {
      assert text[1..] == "";
    } else if |text| > 1 {
      if text[0] == '?' {
        LastCharacter(text[1..], args[1..]);
        RenderNonempty(text[1..], args[1..]);
      } else {
        LastCharacter(text[1..], args);
        RenderNonempty(text[1..], args);
      }
    }
  }

  lemma RenderNonempty(text: string, args: seq<string>)
    requires Render(text, args).Some? && text != ""
    ensures Render(text, args).value != ""
  {
  }

  function Appended(text: string, next: string): string {
    text + (if text != "" && !HasSuffix(text, '\n') then "\n" else "") + next
  }

  /** The accumulated text and arguments of the concatenation loop. */
  function Accumulated(queries: seq<Query>): Query {
    if queries == [] then Query("", [])
    else
      var acc, last := Accumulated(queries[..|queries| - 1]), queries[|queries| - 1];
      Query(Appended(acc.text, last.text), acc.args + last.args)
  }

  function Concatenated(queries: seq<Query>): Query {
    var acc := Accumulated(queries);
    NewQuery(acc.text, acc.args)
  }

  method ConcatenateQueries(queries: seq<Query>) returns (q: Query)
    ensures q == Concatenated(queries)
  {
    var args: seq<string>, query := [], "";
    for i := 0 to |queries|
      invariant Query(query, args) == Accumulated(queries[..i])
    {
      assert queries[..i + 1][..i] == queries[..i];
      if query != "" {
        if !HasSuffix(query, '\n') { query := query + "\n"; }
      }
      query := query + queries[i].text;
      args := args + queries[i].args;
    }
    assert queries[..|queries|] == queries;
    return NewQuery(query, args);
  }

  function Atomic(queries: seq<Query>): Query {
    Concatenated([NewQuery("BEGIN", [])] + queries + [NewQuery("COMMIT", [])])
  }

  method BuildAtomicQuery(queries: seq<Query>) returns (q: Query)
    ensures q == Atomic(queries)
  {
    var all := [NewQuery("BEGIN", [])] + queries;
    all := all + [NewQuery("COMMIT", [])];
    q := ConcatenateQueries(all);
  }

  // The statements of one user.

  /** Template of one account, with or without a password. */
  function AccountText(withPassword: bool): string {
    if withPassword then " ?@? IDENTIFIED BY ?" else " ?@?"
  }

  function AccountArgs(user: string, pwd: Option<string>, host: string): seq<string> {
    [user, host] + if pwd.Some? then [pwd.value] else []
  }

  function Accounts(user: string, pwd: Option<string>, hosts: seq<string>): Query {
    if hosts == [] then Query("", [])
    else
      var acc := Accounts(user, pwd, hosts[..|hosts| - 1]);
      Query(acc.text + (if |hosts| > 1 then "," else "") + AccountText(pwd.Some?),
            acc.args + AccountArgs(user, pwd, hosts[|hosts| - 1]))
  }

  method GetUsersIdentification(user: string, pwd: Option<string>, allowedHosts: seq<string>)
    returns (ids: string, args: seq<string>)
    ensures Query(ids, args) == Accounts(user, pwd, allowedHosts)
  {
    ids, args := "", [];
    for i := 0 to |allowedHosts|
      invariant Query(ids, args) == Accounts(user, pwd, allowedHosts[..i])
    {
      assert allowedHosts[..i + 1][..i] == allowedHosts[..i];
      if i > 0 { ids := ids + ","; }
      if pwd.Some? {
        ids := ids + " ?@? IDENTIFIED BY ?";
        args := args + [user, allowedHosts[i], pwd.value];
      } else {
        ids := ids + " ?@?";
        args := args + [user, allowedHosts[i]];
      }
    }
    assert allowedHosts[..|allowedHosts|] == allowedHosts;
  }

  function WithoutBackticks(id: string): string {
    if id == "" then "" else (if id[0] == '`' then "" else [id[0]]) + WithoutBackticks(id[1..])
  }

  function EscapeId(id: string): string {
    if id == "*" then id else "`" + WithoutBackticks(id) + "`"
  }

  function EscapedPrivileges(privileges: seq<string>): string {
    if privileges == [] then ""
    else EscapedPrivileges(privileges[..|privileges| - 1]) +
         (if |privileges| > 1 then ", " else "") + EscapeOf(privileges[|privileges| - 1])
  }

  method EscapePrivileges(privileges: seq<string>) returns (s: string)
    ensures s == EscapedPrivileges(privileges)
  {
    s := "";
    for i := 0 to |privileges|
      invariant s == EscapedPrivileges(privileges[..i])
    {
      assert privileges[..i + 1][..i] == privileges[..i];
      if i > 0 { s := s + ", "; }
      var e := Escape(privileges[i]);
      s := s + e;
    }
    assert privileges[..|privileges|] == privileges;
  }

  function CreateQuery(spec: UserSpec, pwd: string): Query {
    var ids := Accounts(spec.user, Some(pwd), spec.hosts);
    NewQuery("CREATE USER IF NOT EXISTS" + (ids.text + (" REQUIRE " + spec.tls)), ids.args)
  }

  function AlterQuery(spec: UserSpec, pwd: string): Query {
    var ids := Accounts(spec.user, Some(pwd), spec.hosts);
    NewQuery("ALTER USER" + ids.text, ids.args)
  }

  function GrantHead(perm: Permission, table: string): string {
    "GRANT " + EscapedPrivileges(perm.privileges) + " ON " + (EscapeId(perm.database) + "." + EscapeId(table)) + " TO"
  }

  function GrantTail(spec: UserSpec): string {
    if spec.withGrant then " WITH GRANT OPTION" else ""
  }

  function GrantQuery(spec: UserSpec, perm: Permission, table: string): Query {
    var ids := Accounts(spec.user, None, spec.hosts);
    NewQuery(GrantHead(perm, table) + ids.text + GrantTail(spec), ids.args)
  }

  /** The grants of the first `n` tables of one permission. */
  function TableGrants(spec: UserSpec, perm: Permission, n: nat): seq<Query>
    requires n <= |perm.tables|
  {
    if n == 0 then [] else TableGrants(spec, perm, n - 1) + [GrantQuery(spec, perm, perm.tables[n - 1])]
  }

  /** The grants of the first `n` permissions. */
  function Grants(spec: UserSpec, n: nat): seq<Query>
    requires n <= |spec.permissions|
  {
    if n == 0 then []
    else Grants(spec, n - 1) + TableGrants(spec, spec.permissions[n - 1], |spec.permissions[n - 1].tables|)
  }

  /** The body of the loop over permissions and tables. */
  method GrantOn(spec: UserSpec, perm: Permission, table: string) returns (q: Query)
    ensures q == GrantQuery(spec, perm, table)
  {
    var escPerms := EscapePrivileges(perm.privileges);
    var schemaTable := EscapeId(perm.database) + "." + EscapeId(table);
    var idsTmpl, idsArgs := GetUsersIdentification(spec.user, None, spec.hosts);
    var query := "GRANT " + escPerms + " ON " + schemaTable + " TO" + idsTmpl;
    assert query + "" == query;
    if spec.withGrant { query := query + " WITH GRANT OPTION"; }
    return NewQuery(query, idsArgs);
  }

  method PermissionsToQuery(spec: UserSpec) returns (q: Query)
    ensures q == Concatenated(Grants(spec, |spec.permissions|))
  {
    hide GrantQuery;
    var permQueries: seq<Query> := [];
    for i := 0 to |spec.permissions|
      invariant permQueries == Grants(spec, i)
    {
      var perm := spec.permissions[i];
      for j := 0 to |perm.tables|
        invariant permQueries == Grants(spec, i) + TableGrants(spec, perm, j)
      {
        var grant := GrantOn(spec, perm, perm.tables[j]);
        permQueries := permQueries + [grant];
      }
    }
    q := ConcatenateQueries(permQueries);
  }

  /** The whole query, or None when no host is allowed. */
  function UserManagement(spec: UserSpec, pwd: string): Option<Query> {
    if spec.hosts == [] then None
    else Some(Atomic([CreateQuery(spec, pwd), AlterQuery(spec, pwd)] +
                     if spec.permissions == [] then [] else [Concatenated(Grants(spec, |spec.permissions|))]))
  }

  method BuildUserManagementSQL(spec: UserSpec, pwd: string) returns (q: Option<Query>)
    ensures q == UserManagement(spec, pwd)
  {
    if |spec.hosts| == 0 { return None; }
    var ids, args := GetUsersIdentification(spec.user, Some(pwd), spec.hosts);
    var create := NewQuery("CREATE USER IF NOT EXISTS" + (ids + (" REQUIRE " + spec.tls)), args);
    ids, args := GetUsersIdentification(spec.user, Some(pwd), spec.hosts);
    var queries := [create, NewQuery("ALTER USER" + ids, args)];
    if |spec.permissions| > 0 {
      var grants := PermissionsToQuery(spec);
      queries := queries + [grants];
    } else {
      assert queries + [] == queries;
    }
    var atomic := BuildAtomicQuery(queries);
    return Some(atomic);
  }

  // Placeholders against arguments.

  /** Placeholders in excess of the arguments. */
  function Excess(q: Query): int {
    Marks(q.text) - |q.args|
  }

  lemma MarksTerminated(text: string)
    ensures Marks(Terminated(text)) == Marks(text)
  {
    MarksConcat(text, ";");
  }

  lemma {:induction false} MarksEscaped(s: string)
    ensures Marks(EscapeOf(s)) == Marks(s)
  {
    if s != "" {
      MarksEscaped(s[1..]);
      var head := match EscapeLetter(s[0]) case None => [s[0]] case Some(e) => ['\\', e];
      MarksConcat(head, EscapeOf(s[1..]));
      assert EscapeLetter(s[0]).Some? ==> head[1..] == [head[1]] && head[1..][1..] == "";
      assert EscapeLetter(s[0]).None? ==> head[1..] == "";
    }
  }

  lemma {:induction false} MarksWithoutBackticks(id: string)
    ensures Marks(WithoutBackticks(id)) == Marks(id)
  {
    if id != "" {
      MarksWithoutBackticks(id[1..]);
      if id[0] == '`' {
        assert WithoutBackticks(id) == WithoutBackticks(id[1..]);
      } else {
        assert WithoutBackticks(id)[1..] == WithoutBackticks(id[1..]);
      }
    }
  }

  lemma MarksId(id: string)
    ensures Marks(EscapeId(id)) == Marks(id)
  {
    if id != "*" {
      MarksWithoutBackticks(id);
      MarksConcat("`" + WithoutBackticks(id), "`");
      MarksConcat("`", WithoutBackticks(id));
    }
  }

  function PrivilegeMarks(privileges: seq<string>): nat {
    if privileges == [] then 0
    else PrivilegeMarks(privileges[..|privileges| - 1]) + Marks(privileges[|privileges| - 1])
  }

  lemma {:induction false} MarksPrivileges(privileges: seq<string>)
    ensures Marks(EscapedPrivileges(privileges)) == PrivilegeMarks(privileges)
  {
    if privileges != [] {
      var init, last := privileges[..|privileges| - 1], privileges[|privileges| - 1];
      var sep := if |privileges| > 1 then ", " else "";
      MarksPrivileges(init);
      MarksEscaped(last);
      MarksConcat(EscapedPrivileges(init) + sep, EscapeOf(last));
      MarksConcat(EscapedPrivileges(init), sep);
      assert Marks(", "[1..]) == 0;
    }
  }

  lemma {:induction false} NoMarks(text: string)
    ensures '?' !in text ==> Marks(text) == 0
  {
    if text != "" {
      NoMarks(text[1..]);
    }
  }

  lemma {:induction false} AccountsBalance(user: string, pwd: Option<string>, hosts: seq<string>)
    ensures Excess(Accounts(user, pwd, hosts)) == 0
  {
    if hosts != [] {
      var acc := Accounts(user, pwd, hosts[..|hosts| - 1]);
      var sep := if |hosts| > 1 then "," else "";
      AccountsBalance(user, pwd, hosts[..|hosts| - 1]);
      MarksConcat(acc.text + sep, AccountText(pwd.Some?));
      MarksConcat(acc.text, sep);
      AccountMarks(pwd.Some?);
      NoMarks(sep);
    }
  }

  lemma AccountMarks(withPassword: bool)
    ensures Marks(AccountText(withPassword)) == if withPassword then 3 else 2
  {
    hide Marks;
    NoMarks(" ");
    NoMarks("@");
    NoMarks(" IDENTIFIED BY ");
    ThreeMarks(" ", "@", " IDENTIFIED BY ");
    assert " " + "?" + "@" + "?" == " ?@?";
    assert " ?@?" + " IDENTIFIED BY " + "?" == " ?@? IDENTIFIED BY ?";
  }

  lemma ThreeMarks(a: string, b: string, c: string)
    ensures Marks(a + "?" + b + "?") == Marks(a) + Marks(b) + 2
    ensures Marks(a + "?" + b + "?" + c + "?") == Marks(a) + Marks(b) + Marks(c) + 3
  {
    assert Marks("?") == 1 by { assert "?"[1..] == ""; }
    MarksConcat(a, "?");
    MarksConcat(a + "?", b);
    MarksConcat(a + "?" + b, "?");
    MarksConcat(a + "?" + b + "?", c);
    MarksConcat(a + "?" + b + "?" + c, "?");
  }

  /** A template made of plain text around balanced accounts. */
  lemma SurroundedExcess(head: string, ids: Query, tail: string)
    ensures Excess(NewQuery(head + (ids.text + tail), ids.args)) == Marks(head) + Excess(ids) + Marks(tail)
  {
    MarksConcat(head, ids.text + tail);
    MarksConcat(ids.text, tail);
    MarksTerminated(head + (ids.text + tail));
  }

  lemma CreateExcess(spec: UserSpec, pwd: string)
    ensures Excess(CreateQuery(spec, pwd)) == Marks(spec.tls)
    ensures Excess(AlterQuery(spec, pwd)) == 0
  {
    hide Marks, Terminated;
    var ids := Accounts(spec.user, Some(pwd), spec.hosts);
    AccountsBalance(spec.user, Some(pwd), spec.hosts);
    SurroundedExcess("CREATE USER IF NOT EXISTS", ids, " REQUIRE " + spec.tls);
    SurroundedExcess("ALTER USER", ids, "");
    assert ids.text + "" == ids.text;
    MarksConcat(" REQUIRE ", spec.tls);
    NoMarks("CREATE USER IF NOT EXISTS");
    NoMarks(" REQUIRE ");
    NoMarks("ALTER USER");
    NoMarks("");
  }

  /** Placeholders that the user's own strings bring into one grant. */
  function GrantMarks(perm: Permission, table: string): nat {
    PrivilegeMarks(perm.privileges) + Marks(perm.database) + Marks(table)
  }

  lemma GrantHeadMarks(perm: Permission, table: string)
    ensures Marks(GrantHead(perm, table)) == GrantMarks(perm, table)
  {
    var p, t := EscapedPrivileges(perm.privileges), EscapeId(perm.database) + "." + EscapeId(table);
    MarksConcat("GRANT " + p + " ON " + t, " TO");
    MarksConcat("GRANT " + p + " ON ", t);
    MarksConcat("GRANT " + p, " ON ");
    MarksConcat("GRANT ", p);
    MarksConcat(EscapeId(perm.database) + ".", EscapeId(table));
    MarksConcat(EscapeId(perm.database), ".");
    MarksPrivileges(perm.privileges);
    MarksId(perm.database);
    MarksId(table);
    NoMarks("GRANT ");
    NoMarks(" ON ");
    NoMarks(" TO");
    NoMarks(".");
  }

  lemma GrantExcess(spec: UserSpec, perm: Permission, table: string)
    ensures Excess(GrantQuery(spec, perm, table)) == GrantMarks(perm, table)
  {
    hide Marks, Terminated, GrantHead, GrantMarks, Accounts;
    var ids := Accounts(spec.user, None, spec.hosts);
    AccountsBalance(spec.user, None, spec.hosts);
    GrantHeadMarks(perm, table);
    SurroundedExcess(GrantHead(perm, table), ids, GrantTail(spec));
    AppendAssociates(GrantHead(perm, table), ids.text, GrantTail(spec));
    NoMarks(GrantTail(spec));
  }

  function TotalExcess(queries: seq<Query>): int {
    if queries == [] then 0
    else TotalExcess(queries[..|queries| - 1]) + Excess(queries[|queries| - 1])
  }

  lemma {:induction false} AccumulatedExcess(queries: seq<Query>)
    ensures Excess(Accumulated(queries)) == TotalExcess(queries)
  {
    if queries != [] {
      var acc, last := Accumulated(queries[..|queries| - 1]), queries[|queries| - 1];
      var sep := if acc.text != "" && !HasSuffix(acc.text, '\n') then "\n" else "";
      AccumulatedExcess(queries[..|queries| - 1]);
      MarksConcat(acc.text + sep, last.text);
      MarksConcat(acc.text, sep);
      NoMarks(sep);
    }
  }

  lemma ConcatenatedExcess(queries: seq<Query>)
    ensures Excess(Concatenated(queries)) == TotalExcess(queries)
  {
    AccumulatedExcess(queries);
    MarksTerminated(Accumulated(queries).text);
  }

  lemma {:induction false} TotalExcessConcat(a: seq<Query>, b: seq<Query>)
    ensures TotalExcess(a + b) == TotalExcess(a) + TotalExcess(b)
  {
    if b == [] {
      assert a + b == a;
    } else {
      TotalExcessConcat(a, b[..|b| - 1]);
      assert (a + b)[..|a + b| - 1] == a + b[..|b| - 1];
    }
  }

  function TableMarks(perm: Permission, n: nat): nat
    requires n <= |perm.tables|
  {
    if n == 0 then 0 else TableMarks(perm, n - 1) + GrantMarks(perm, perm.tables[n - 1])
  }

  function PermissionMarks(spec: UserSpec, n: nat): nat
    requires n <= |spec.permissions|
  {
    if n == 0 then 0
    else PermissionMarks(spec, n - 1) + TableMarks(spec.permissions[n - 1], |spec.permissions[n - 1].tables|)
  }

  /** All the question marks in the TLS type and, per grant, in privileges, database and table. */
  function UserMarks(spec: UserSpec): nat {
    Marks(spec.tls) + PermissionMarks(spec, |spec.permissions|)
  }

  lemma {:induction false} TableExcess(spec: UserSpec, perm: Permission, n: nat)
    requires n <= |perm.tables|
    ensures TotalExcess(TableGrants(spec, perm, n)) == TableMarks(perm, n)
  {
    hide GrantQuery, GrantMarks, Excess;
    if n > 0 {
      TableExcess(spec, perm, n - 1);
      GrantExcess(spec, perm, perm.tables[n - 1]);
    }
  }

  lemma {:induction false} GrantsExcess(spec: UserSpec, n: nat)
    requires n <= |spec.permissions|
    ensures TotalExcess(Grants(spec, n)) == PermissionMarks(spec, n)
  {
    hide TotalExcess, TableGrants, TableMarks;
    if n > 0 {
      GrantsExcess(spec, n - 1);
      var perm := spec.permissions[n - 1];
      TableExcess(spec, perm, |perm.tables|);
      TotalExcessConcat(Grants(spec, n - 1), TableGrants(spec, perm, |perm.tables|));
    } else {
      NoExcess();
    }
  }

  lemma NoExcess()
    ensures TotalExcess([]) == 0
  {
  }

  lemma SingleExcess(q: Query)
    ensures TotalExcess([q]) == Excess(q)
  {
    assert [q][..0] == [];
  }

  lemma FrameExcess()
    ensures Excess(NewQuery("BEGIN", [])) == 0 && Excess(NewQuery("COMMIT", [])) == 0
  {
    hide Marks, Terminated;
    MarksTerminated("BEGIN");
    MarksTerminated("COMMIT");
    NoMarks("BEGIN");
    NoMarks("COMMIT");
  }

  lemma AtomicExcess(queries: seq<Query>)
    ensures Excess(Atomic(queries)) == TotalExcess(queries)
  {
    hide TotalExcess, Concatenated, NewQuery, Excess;
    var begin_, commit := NewQuery("BEGIN", []), NewQuery("COMMIT", []);
    FrameExcess();
    SingleExcess(begin_);
    SingleExcess(commit);
    TotalExcessConcat([begin_], queries);
    TotalExcessConcat([begin_] + queries, [commit]);
    ConcatenatedExcess([begin_] + queries + [commit]);
  }

  /** The placeholders exceed the arguments by exactly the question marks in the user's own strings. */
  lemma PlaceholdersAgainstArguments(spec: UserSpec, pwd: string)
    requires spec.hosts != []
    ensures Excess(UserManagement(spec, pwd).value) == UserMarks(spec)
    ensures Render(UserManagement(spec, pwd).value.text, UserManagement(spec, pwd).value.args).Some? <==>
            UserMarks(spec) == 0
  {
    hide CreateQuery, AlterQuery, Concatenated, Grants, TotalExcess, Atomic, Marks, Render, PermissionMarks;
    var q, all := UserManagement(spec, pwd).value, Grants(spec, |spec.permissions|);
    var grants := if spec.permissions == [] then [] else [Concatenated(all)];
    var create, alter := CreateQuery(spec, pwd), AlterQuery(spec, pwd);
    CreateExcess(spec, pwd);
    GrantsExcess(spec, |spec.permissions|);
    ConcatenatedExcess(all);
    SingleExcess(Concatenated(all));
    NoExcess();
    SingleExcess(create);
    SingleExcess(alter);
    TotalExcessConcat([create], [alter]);
    assert [create] + [alter] == [create, alter];
    TotalExcessConcat([create, alter], grants);
    NoPermissionMarks(spec);
    AtomicExcess([create, alter] + grants);
    RenderExists(q.text, q.args);
  }

  lemma NoPermissionMarks(spec: UserSpec)
    ensures spec.permissions == [] ==> PermissionMarks(spec, |spec.permissions|) == 0
  {
  }

  // What the query renders to, written down statement by statement without any template.

  function AccountRendered(user: string, pwd: Option<string>, host: string): string {
    " " + Literal(user) + "@" + Literal(host) + if pwd.Some? then " IDENTIFIED BY " + Literal(pwd.value) else ""
  }

  /** The accounts of a user in the order of the hosts. */
  function AccountsRendered(user: string, pwd: Option<string>, hosts: seq<string>): string {
    if hosts == [] then ""
    else AccountsRendered(user, pwd, hosts[..|hosts| - 1]) + (if |hosts| > 1 then "," else "") +
         AccountRendered(user, pwd, hosts[|hosts| - 1])
  }

  function CreateStatement(spec: UserSpec, pwd: string): string {
    var accounts := AccountsRendered(spec.user, Some(pwd), spec.hosts);
    Terminated("CREATE USER IF NOT EXISTS" + (accounts + (" REQUIRE " + spec.tls)))
  }

  function AlterStatement(spec: UserSpec, pwd: string): string {
    Terminated("ALTER USER" + (AccountsRendered(spec.user, Some(pwd), spec.hosts) + ""))
  }

  /** strings.Join with a comma and a space. */
  function CommaList(parts: seq<string>): string {
    if parts == [] then "" else if |parts| == 1 then parts[0] else parts[0] + ", " + CommaList(parts[1..])
  }

  function EscapedAll(parts: seq<string>): seq<string> {
    seq(|parts|, i requires 0 <= i < |parts| => EscapeOf(parts[i]))
  }

  function Flattened(parts: seq<string>): string {
    if parts == [] then "" else parts[0] + Flattened(parts[1..])
  }

  /** The star, or the pieces between the backticks of the id, put together between two backticks. */
  function QuotedId(id: string): string {
    if id == "*" then "*" else "`" + Flattened(Split(id, '`')) + "`"
  }

  function GrantStatement(spec: UserSpec, perm: Permission, table: string): string {
    "GRANT " + CommaList(EscapedAll(perm.privileges)) + " ON " + QuotedId(perm.database) + "." + QuotedId(table) +
    " TO" + AccountsRendered(spec.user, None, spec.hosts) +
    (if spec.withGrant then " WITH GRANT OPTION" else "") + ";"
  }

  function TableStatements(spec: UserSpec, perm: Permission, n: nat): seq<string>
    requires n <= |perm.tables|
  {
    if n == 0 then [] else TableStatements(spec, perm, n - 1) + [GrantStatement(spec, perm, perm.tables[n - 1])]
  }

  function GrantStatements(spec: UserSpec, n: nat): seq<string>
    requires n <= |spec.permissions|
  {
    if n == 0 then []
    else GrantStatements(spec, n - 1) + TableStatements(spec, spec.permissions[n - 1], |spec.permissions[n - 1].tables|)
  }

  /** All statements; permissions without any table leave an empty one. */
  function Statements(spec: UserSpec, pwd: string): seq<string> {
    var grants := GrantStatements(spec, |spec.permissions|);
    ["BEGIN;", CreateStatement(spec, pwd), AlterStatement(spec, pwd)] +
    (if spec.permissions == [] then [] else if grants == [] then [";"] else grants) +
    ["COMMIT;"]
  }

  /** A query renders to `r`, both ending in a semicolon. */
  predicate RendersTo(q: Query, r: string) {
    Render(q.text, q.args) == Some(r) && HasSuffix(q.text, ';') && HasSuffix(r, ';')
  }

  lemma RenderMark(arg: string)
    ensures Render("?", [arg]) == Some(Literal(arg))
  {
    assert Render("", []) == Some("");
    RenderCons('?', "", [arg]);
    assert ['?'] + "" == "?" && [arg][1..] == [];
    assert Literal(arg) + "" == Literal(arg);
  }

  lemma RenderAccount(user: string, pwd: Option<string>, host: string)
    ensures Render(AccountText(pwd.Some?), AccountArgs(user, pwd, host)) == Some(AccountRendered(user, pwd, host))
  {
    hide Render, Literal, Marks;
    NoMarks(" ");
    NoMarks("@");
    NoMarks(" IDENTIFIED BY ");
    RenderPlain(" ");
    RenderPlain("@");
    RenderPlain(" IDENTIFIED BY ");
    RenderMark(user);
    RenderMark(host);
    RenderConcat(" ", [], "?", [user]);
    RenderConcat(" " + "?", [] + [user], "@", []);
    RenderConcat(" " + "?" + "@", [] + [user] + [], "?", [host]);
    assert " " + "?" + "@" + "?" == " ?@?" && [] + [user] + [] + [host] == [user, host];
    var two := " " + Literal(user) + "@" + Literal(host);
    if pwd.Some? {
      RenderMark(pwd.value);
      RenderConcat(" ?@?", [user, host], " IDENTIFIED BY ", []);
      RenderConcat(" ?@?" + " IDENTIFIED BY ", [user, host] + [], "?", [pwd.value]);
      assert " ?@?" + " IDENTIFIED BY " + "?" == " ?@? IDENTIFIED BY ?";
      assert [user, host] + [] + [pwd.value] == AccountArgs(user, pwd, host);
      AppendAssociates(two, " IDENTIFIED BY ", Literal(pwd.value));
    } else {
      assert two + "" == two && [user, host] + [] == [user, host];
    }
  }

  lemma {:induction false} RenderAccounts(user: string, pwd: Option<string>, hosts: seq<string>)
    ensures Render(Accounts(user, pwd, hosts).text, Accounts(user, pwd, hosts).args) ==
            Some(AccountsRendered(user, pwd, hosts))
  {
    if hosts != [] {
      hide Render, AccountText, AccountArgs, AccountRendered, Marks;
      var init, last := hosts[..|hosts| - 1], hosts[|hosts| - 1];
      var acc, sep := Accounts(user, pwd, init), if |hosts| > 1 then "," else "";
      RenderAccounts(user, pwd, init);
      NoMarks(sep);
      RenderPlain(sep);
      RenderAccount(user, pwd, last);
      RenderConcat(acc.text, acc.args, sep, []);
      assert acc.args + [] == acc.args;
      RenderConcat(acc.text + sep, acc.args, AccountText(pwd.Some?), AccountArgs(user, pwd, last));
    }
  }

  lemma Surrounded(head: string, ids: Query, r: string, tail: string)
    requires Marks(head) == 0 && Marks(tail) == 0 && Render(ids.text, ids.args) == Some(r)
    ensures RendersTo(NewQuery(head + (ids.text + tail), ids.args), Terminated(head + (r + tail)))
  {
    RenderPlain(head);
    RenderPlain(tail);
    RenderConcat(ids.text, ids.args, tail, []);
    assert ids.args + [] == ids.args && [] + ids.args == ids.args;
    RenderConcat(head, [], ids.text + tail, ids.args);
    RenderTerminated(head + (ids.text + tail), ids.args);
  }

  lemma RenderAccountStatements(spec: UserSpec, pwd: string)
    requires Marks(spec.tls) == 0
    ensures RendersTo(CreateQuery(spec, pwd), CreateStatement(spec, pwd))
    ensures RendersTo(AlterQuery(spec, pwd), AlterStatement(spec, pwd))
  {
    hide RendersTo, Marks, Accounts, AccountsRendered;
    var ids, r := Accounts(spec.user, Some(pwd), spec.hosts), AccountsRendered(spec.user, Some(pwd), spec.hosts);
    RenderAccounts(spec.user, Some(pwd), spec.hosts);
    NoMarks("CREATE USER IF NOT EXISTS");
    NoMarks("ALTER USER");
    NoMarks(" REQUIRE ");
    NoMarks("");
    MarksConcat(" REQUIRE ", spec.tls);
    Surrounded("CREATE USER IF NOT EXISTS", ids, r, " REQUIRE " + spec.tls);
    Surrounded("ALTER USER", ids, r, "");
    assert ids.text + "" == ids.text;
  }

  lemma {:induction false} IdIsQuoted(id: string)
    ensures WithoutBackticks(id) == Flattened(Split(id, '`'))
  {
    if id != "" {
      IdIsQuoted(id[1..]);
      var rest := Split(id[1..], '`');
      assert Split(id, '`')[1..] == if id[0] == '`' then rest else rest[1..];
    }
  }

  /** A quoted id has exactly the two outer backticks. */
  lemma {:induction false} OnlyOuterBackticks(id: string)
    ensures '`' !in WithoutBackticks(id)
  {
    if id != "" { OnlyOuterBackticks(id[1..]); }
  }

  lemma {:induction false} CommaListSnoc(parts: seq<string>, last: string)
    ensures CommaList(parts + [last]) == if parts == [] then last else CommaList(parts) + ", " + last
  {
    if parts == [] {
      assert parts + [last] == [last];
    } else {
      CommaListSnoc(parts[1..], last);
      assert (parts + [last])[1..] == parts[1..] + [last];
    }
  }

  lemma {:induction false} PrivilegesAreListed(privileges: seq<string>)
    ensures EscapedPrivileges(privileges) == CommaList(EscapedAll(privileges))
  {
    if privileges != [] {
      var init, last := privileges[..|privileges| - 1], privileges[|privileges| - 1];
      PrivilegesAreListed(init);
      assert EscapedAll(privileges) == EscapedAll(init) + [EscapeOf(last)];
      CommaListSnoc(EscapedAll(init), EscapeOf(last));
    }
  }

  /** The rendered accounts end in the quote of a literal. */
  lemma AccountsEnd(user: string, hosts: seq<string>)
    ensures hosts != [] ==> HasSuffix(AccountsRendered(user, None, hosts), '\'')
  {
  }

  lemma NotTerminated(head: string, middle: string, tail: string)
    requires HasSuffix(head, 'O') && (middle == "" || HasSuffix(middle, '\''))
    requires tail == "" || tail == " WITH GRANT OPTION"
    ensures Terminated(head + (middle + tail)) == head + middle + tail + ";"
  {
    var text := head + (middle + tail);
    assert text == head + middle + tail;
    assert text[|text| - 1] == if tail != "" then tail[|tail| - 1] else if middle != "" then middle[|middle| - 1]
                               else head[|head| - 1];
  }

  lemma GrantIsWritten(spec: UserSpec, perm: Permission, table: string)
    ensures Terminated(GrantHead(perm, table) + (AccountsRendered(spec.user, None, spec.hosts) + GrantTail(spec))) ==
            GrantStatement(spec, perm, table)
  {
    PrivilegesAreListed(perm.privileges);
    IdIsQuoted(perm.database);
    IdIsQuoted(table);
    AccountsEnd(spec.user, spec.hosts);
    var head := GrantHead(perm, table);
    hide EscapedPrivileges, WithoutBackticks, CommaList, EscapedAll, Flattened, AccountRendered, Split;
    var ps := "GRANT " + EscapedPrivileges(perm.privileges) + " ON ";
    AppendAssociates(ps, EscapeId(perm.database) + ".", EscapeId(table));
    AppendAssociates(ps, EscapeId(perm.database), ".");
    NotTerminated(head, AccountsRendered(spec.user, None, spec.hosts), GrantTail(spec));
  }

  lemma RenderGrant(spec: UserSpec, perm: Permission, table: string)
    requires GrantMarks(perm, table) == 0
    ensures RendersTo(GrantQuery(spec, perm, table), GrantStatement(spec, perm, table))
  {
    GrantIsWritten(spec, perm, table);
    hide RendersTo, Marks, Accounts, AccountsRendered, GrantHead, GrantStatement, Terminated;
    var ids, r := Accounts(spec.user, None, spec.hosts), AccountsRendered(spec.user, None, spec.hosts);
    RenderAccounts(spec.user, None, spec.hosts);
    GrantHeadMarks(perm, table);
    NoMarks(GrantTail(spec));
    Surrounded(GrantHead(perm, table), ids, r, GrantTail(spec));
    AppendAssociates(GrantHead(perm, table), ids.text, GrantTail(spec));
  }

  /** Queries render one by one. */
  predicate AllRender(queries: seq<Query>, rs: seq<string>) {
    |queries| == |rs| && forall i | 0 <= i < |rs| :: RendersTo(queries[i], rs[i])
  }

  lemma AllRenderConcat(a: seq<Query>, x: seq<string>, b: seq<Query>, y: seq<string>)
    requires AllRender(a, x) && AllRender(b, y)
    ensures AllRender(a + b, x + y)
  {
    hide RendersTo;
  }

  lemma AllRenderOne(q: Query, r: string)
    requires RendersTo(q, r)
    ensures AllRender([q], [r])
  {
    hide RendersTo;
  }

  lemma EmptyRender()
    ensures AllRender([], [])
  {
  }

  lemma {:induction false} RenderTables(spec: UserSpec, perm: Permission, n: nat)
    requires n <= |perm.tables| && TableMarks(perm, n) == 0
    ensures AllRender(TableGrants(spec, perm, n), TableStatements(spec, perm, n))
  {
    EmptyRender();
    hide RendersTo, GrantQuery, GrantStatement, GrantMarks, AllRender;
    if n > 0 {
      var table := perm.tables[n - 1];
      RenderTables(spec, perm, n - 1);
      RenderGrant(spec, perm, table);
      AllRenderOne(GrantQuery(spec, perm, table), GrantStatement(spec, perm, table));
      AllRenderConcat(TableGrants(spec, perm, n - 1), TableStatements(spec, perm, n - 1),
                      [GrantQuery(spec, perm, table)], [GrantStatement(spec, perm, table)]);
    }
  }

  lemma {:induction false} RenderGrants(spec: UserSpec, n: nat)
    requires n <= |spec.permissions| && PermissionMarks(spec, n) == 0
    ensures AllRender(Grants(spec, n), GrantStatements(spec, n))
  {
    EmptyRender();
    hide RendersTo, TableGrants, TableStatements, TableMarks, AllRender;
    if n > 0 {
      var perm := spec.permissions[n - 1];
      RenderGrants(spec, n - 1);
      RenderTables(spec, perm, |perm.tables|);
      AllRenderConcat(Grants(spec, n - 1), GrantStatements(spec, n - 1),
                      TableGrants(spec, perm, |perm.tables|), TableStatements(spec, perm, |perm.tables|));
    }
  }

  lemma RenderAppended(acc: Query, j: string, q: Query, r: string)
    requires RendersTo(acc, j) && RendersTo(q, r)
    ensures RendersTo(Query(Appended(acc.text, q.text), acc.args + q.args), j + ['\n'] + r)
  {
    hide Render;
    NoMarks("\n");
    RenderPlain("\n");
    RenderConcat(acc.text, acc.args, "\n", []);
    assert acc.args + [] == acc.args;
    RenderConcat(acc.text + "\n", acc.args, q.text, q.args);
    assert Appended(acc.text, q.text) == acc.text + "\n" + q.text;
  }

  /** Concatenating queries joins what they render to by newlines. */
  lemma {:induction false} RenderAccumulated(queries: seq<Query>, rs: seq<string>)
    requires AllRender(queries, rs) && queries != []
    ensures RendersTo(Accumulated(queries), Join(rs, '\n'))
  {
    var qs, q, ss, r := queries[..|queries| - 1], queries[|queries| - 1], rs[..|rs| - 1], rs[|rs| - 1];
    assert RendersTo(q, r) && rs == ss + [r];
    JoinSnoc(ss, r, '\n');
    if qs == [] {
      assert "" + "" + q.text == q.text && [] + q.args == q.args;
    } else {
      RenderAccumulated(qs, ss);
      RenderAppended(Accumulated(qs), Join(ss, '\n'), q, r);
      hide RendersTo, Join, Appended;
    }
  }

  lemma RenderConcatenated(queries: seq<Query>, rs: seq<string>)
    requires AllRender(queries, rs)
    ensures RendersTo(Concatenated(queries), if rs == [] then ";" else Join(rs, '\n'))
  {
    if queries == [] {
      NoMarks(";");
      RenderPlain(";");
    } else {
      RenderAccumulated(queries, rs);
    }
  }

  lemma {:induction false} JoinConcat(a: seq<string>, b: seq<string>, c: char)
    requires a != [] && b != []
    ensures Join(a + b, c) == Join(a, c) + [c] + Join(b, c)
  {
    var init, last := b[..|b| - 1], b[|b| - 1];
    assert b == init + [last] && a + b == a + init + [last];
    hide Join;
    JoinSnoc(init, last, c);
    JoinSnoc(a + init, last, c);
    if init == [] {
      assert a + init == a;
    } else {
      JoinConcat(a, init, c);
      AppendAssociates(Join(a, c) + [c], Join(init, c), [c] + last);
      AppendAssociates(Join(init, c), [c], last);
      AppendAssociates(Join(a + init, c), [c], last);
    }
  }

  lemma JoinNested(a: seq<string>, b: seq<string>, c: char)
    requires a != [] && b != []
    ensures Join(a + [Join(b, c)], c) == Join(a + b, c)
  {
    JoinSnoc(a, Join(b, c), c);
    JoinConcat(a, b, c);
  }

  /** Joining the grants on their own first makes no difference. */
  lemma JoinMiddle(head: seq<string>, ts: seq<string>)
    requires head != []
    ensures Join(head + [if ts == [] then ";" else Join(ts, '\n')] + ["COMMIT;"], '\n') ==
            Join(head + (if ts == [] then [";"] else ts) + ["COMMIT;"], '\n')
  {
    hide Join;
    if ts != [] {
      JoinNested(head, ts, '\n');
      JoinSnoc(head + [Join(ts, '\n')], "COMMIT;", '\n');
      JoinSnoc(head + ts, "COMMIT;", '\n');
    }
  }

  lemma NoTlsMarks(spec: UserSpec)
    requires UserMarks(spec) == 0
    ensures Marks(spec.tls) == 0 && PermissionMarks(spec, |spec.permissions|) == 0
  {
  }

  /** The middle of the query: account statements and grants, with the grants joined on their own. */
  lemma RenderMiddle(spec: UserSpec, pwd: string) returns (queries: seq<Query>, rs: seq<string>)
    requires spec.hosts != [] && UserMarks(spec) == 0
    ensures UserManagement(spec, pwd) == Some(Atomic(queries)) && AllRender(queries, rs)
    ensures Join(["BEGIN;"] + rs + ["COMMIT;"], '\n') == Join(Statements(spec, pwd), '\n')
  {
    hide RendersTo, Atomic, Concatenated, CreateQuery, AlterQuery, CreateStatement, AlterStatement, Join, AllRender;
    hide Grants, Marks, UserMarks, PermissionMarks;
    var n := |spec.permissions|;
    var create, alter := CreateStatement(spec, pwd), AlterStatement(spec, pwd);
    NoTlsMarks(spec);
    RenderAccountStatements(spec, pwd);
    AllRenderOne(CreateQuery(spec, pwd), create);
    AllRenderOne(AlterQuery(spec, pwd), alter);
    AllRenderConcat([CreateQuery(spec, pwd)], [create], [AlterQuery(spec, pwd)], [alter]);
    queries, rs := [CreateQuery(spec, pwd)] + [AlterQuery(spec, pwd)], [create] + [alter];
    assert queries == [CreateQuery(spec, pwd), AlterQuery(spec, pwd)];
    if n == 0 {
      assert [CreateQuery(spec, pwd), AlterQuery(spec, pwd)] + [] == queries;
      assert ["BEGIN;"] + rs + ["COMMIT;"] == Statements(spec, pwd);
    } else {
      var gs, ts := Grants(spec, n), GrantStatements(spec, n);
      var last := if ts == [] then ";" else Join(ts, '\n');
      RenderGrants(spec, n);
      RenderConcatenated(gs, ts);
      JoinMiddle(["BEGIN;"] + rs, ts);
      AllRenderOne(Concatenated(gs), last);
      AllRenderConcat(queries, rs, [Concatenated(gs)], [last]);
      assert ["BEGIN;"] + (rs + [last]) == ["BEGIN;"] + rs + [last];
      assert ["BEGIN;"] + rs == ["BEGIN;", create, alter];
      queries, rs := queries + [Concatenated(gs)], rs + [last];
    }
  }

  /**
   The rendered query is the newline-join of BEGIN, the CREATE and ALTER statements, one GRANT statement
   per permission and table, and COMMIT, provided the user's own strings contain no question mark. There is
   a query exactly if there is a host.
   */
  lemma RenderedQuery(spec: UserSpec, pwd: string)
    requires UserMarks(spec) == 0
    ensures UserManagement(spec, pwd).Some? <==> spec.hosts != []
    ensures spec.hosts != [] ==>
              var q := UserManagement(spec, pwd).value;
              Render(q.text, q.args) == Some(Join(Statements(spec, pwd), '\n'))
  {
    if spec.hosts != [] {
      var queries, rs := RenderMiddle(spec, pwd);
      hide *;
      RenderAtomic(queries, rs);
    }
  }

  lemma PlainQuery(text: string)
    requires '?' !in text && !HasSuffix(text, ';')
    ensures RendersTo(NewQuery(text, []), text + ";")
  {
    NoMarks(text + ";");
    RenderPlain(text + ";");
  }

  lemma RenderFrame()
    ensures RendersTo(NewQuery("BEGIN", []), "BEGIN;") && RendersTo(NewQuery("COMMIT", []), "COMMIT;")
  {
    hide RendersTo, NewQuery;
    PlainQuery("BEGIN");
    PlainQuery("COMMIT");
    assert "BEGIN" + ";" == "BEGIN;" && "COMMIT" + ";" == "COMMIT;";
  }

  lemma RenderAtomic(queries: seq<Query>, rs: seq<string>)
    requires AllRender(queries, rs)
    ensures Render(Atomic(queries).text, Atomic(queries).args) == Some(Join(["BEGIN;"] + rs + ["COMMIT;"], '\n'))
  {
    RenderFrame();
    hide Render, Join, NewQuery, Concatenated, HasSuffix;
    RenderConcatenated([NewQuery("BEGIN", [])] + queries + [NewQuery("COMMIT", [])], ["BEGIN;"] + rs + ["COMMIT;"]);
  }
}
