/** internal/cmd/import.go: the argument check of `import` and the loop that
    turns CSV rows into user-creation requests. Reading the file and the pause
    between calls are not modelled; the remote user.Create is an oracle that
    answers, for a row index and the user built from that row, whether the
    creation succeeded. */
module ImportCmd {
  import opened Wrappers
  import opened GoStrings

  /** warrant.UserParams, as far as the import fills it. */
  datatype UserParams = UserParams(userId: string, email: string)

  const ImportArgCount := "must provide 2 args for import: 'entityType' and 'filename'"
  const ImportEntityType := "first arg must be one of: users"

  /** The `Args` validator: no arguments (show the help text), or exactly an
      entity type, which must be "users", and a file name. */
  function ValidateImportArgs(args: seq<string>): (e: Option<string>)
    ensures e.None? <==> |args| == 0 || (|args| == 2 && args[0] == "users")
    ensures |args| != 0 && |args| != 2 ==> e == Some(ImportArgCount)
    ensures |args| == 2 && args[0] != "users" ==> e == Some(ImportEntityType)
  {
    if |args| != 0 && |args| != 2 then Some(ImportArgCount)
    else if |args| > 0 && args[0] != "users" then Some(ImportEntityType)
    else None
  }

  /** The user once the column loop has visited the first `j` columns of a row. */
  function ColumnsUser(row: seq<string>, j: nat): UserParams
    requires j <= |row|
  {
    if j == 0 then UserParams("", "")
    else
      var u := ColumnsUser(row, j - 1);
      if j - 1 == 0 then u.(userId := TrimSpace(row[0]))
      else if j - 1 == 1 then u.(email := TrimSpace(row[1]))
      else u
  }

  /** The user a row describes. */
  function RowUser(row: seq<string>): UserParams
  {
    ColumnsUser(row, |row|)
  }

  lemma {:induction false} ColumnsUserFields(row: seq<string>, j: nat)
    requires j <= |row|
    ensures ColumnsUser(row, j)
            == UserParams(if j > 0 then TrimSpace(row[0]) else "", if j > 1 then TrimSpace(row[1]) else "")
  {
    if j > 0 {
      ColumnsUserFields(row, j - 1);
    }
  }

  /** Column 0 trimmed is the id and column 1 trimmed the email; a missing
      column leaves its field empty, and later columns are ignored. */
  lemma RowUserColumns(row: seq<string>)
    ensures RowUser(row)
            == UserParams(if |row| > 0 then TrimSpace(row[0]) else "", if |row| > 1 then TrimSpace(row[1]) else "")
  {
    ColumnsUserFields(row, |row|);
  }

  /** Both fields of the user a row describes start and end with a character
      other than white space. */
  lemma RowUserTrimmed(row: seq<string>)
    ensures var u := RowUser(row);
      && (u.userId != "" ==> !IsSpace(u.userId[0]) && !IsSpace(u.userId[|u.userId| - 1]))
      && (u.email != "" ==> !IsSpace(u.email[0]) && !IsSpace(u.email[|u.email| - 1]))
  {
    RowUserColumns(row);
    if |row| > 0 {
      var lo, hi := TrimSpaceBounds(row[0]);
    }
    if |row| > 1 {
      var lo, hi := TrimSpaceBounds(row[1]);
    }
  }

  /** White space added at either end of the id column changes nothing. */
  lemma RowUserPaddedId(row: seq<string>, pre: string, post: string)
    requires |row| > 0
    requires forall k :: 0 <= k < |pre| ==> IsSpace(pre[k])
    requires forall k :: 0 <= k < |post| ==> IsSpace(post[k])
    ensures RowUser([pre + row[0] + post] + row[1..]) == RowUser(row)
  {
    var padded := [pre + row[0] + post] + row[1..];
    assert padded[0] == pre + row[0] + post;
    assert |row| > 1 ==> padded[1] == row[1];
    TrimSpacePadded(pre, row[0], post);
    RowUserColumns(row);
    RowUserColumns(padded);
  }

  /** White space added at either end of the email column changes nothing. */
  lemma RowUserPaddedEmail(row: seq<string>, pre: string, post: string)
    requires |row| > 1
    requires forall k :: 0 <= k < |pre| ==> IsSpace(pre[k])
    requires forall k :: 0 <= k < |post| ==> IsSpace(post[k])
    ensures RowUser([row[0], pre + row[1] + post] + row[2..]) == RowUser(row)
  {
    var padded := [row[0], pre + row[1] + post] + row[2..];
    assert padded[0] == row[0] && padded[1] == pre + row[1] + post;
    TrimSpacePadded(pre, row[1], post);
    RowUserColumns(row);
    RowUserColumns(padded);
  }

  /** The column loop of importUsers. */
  method UserFromRow(line: seq<string>) returns (newUser: UserParams)
    ensures newUser == RowUser(line)
    ensures newUser.userId == if |line| > 0 then TrimSpace(line[0]) else ""
    ensures newUser.email == if |line| > 1 then TrimSpace(line[1]) else ""
  {
    newUser := UserParams("", "");
    for j := 0 to |line|
      invariant newUser == ColumnsUser(line, j)
    {
      if j == 0 {
        newUser := newUser.(userId := TrimSpace(line[j]));
      } else if j == 1 {
        newUser := newUser.(email := TrimSpace(line[j]));
      }
    }
    RowUserColumns(line);
  }

  /** The users submitted for the first `n` rows: one per row after the header. */
  function Submitted(data: seq<seq<string>>, n: nat): seq<UserParams>
    requires n <= |data|
  {
    if n <= 1 then [] else Submitted(data, n - 1) + [RowUser(data[n - 1])]
  }

  /** How many of the first `n` rows after the header the service accepted. */
  function Accepted(data: seq<seq<string>>, create: (nat, UserParams) -> bool, n: nat): nat
    requires n <= |data|
  {
    if n <= 1 then 0
    else Accepted(data, create, n - 1) + (if create(n - 1, RowUser(data[n - 1])) then 1 else 0)
  }

  /** The header row is never submitted: row `k + 1` gives the `k`-th request,
      and there is one request per data row. */
  lemma {:induction false} SubmittedRows(data: seq<seq<string>>, n: nat)
    requires n <= |data|
    ensures |Submitted(data, n)| == if n == 0 then 0 else n - 1
    ensures forall k :: 0 <= k < |Submitted(data, n)| ==> Submitted(data, n)[k] == RowUser(data[k + 1])
  {
    if n > 1 {
      SubmittedRows(data, n - 1);
      var before := Submitted(data, n - 1);
      var after := Submitted(data, n);
      assert after == before + [RowUser(data[n - 1])];
      forall k | 0 <= k < |after| ensures after[k] == RowUser(data[k + 1]) {
        if k < |before| { assert after[k] == before[k]; }
      }
    }
  }

  /** The service accepts at most one user per data row. */
  lemma {:induction false} AcceptedBound(data: seq<seq<string>>, create: (nat, UserParams) -> bool, n: nat)
    requires n <= |data|
    ensures Accepted(data, create, n) <= |Submitted(data, n)|
  {
    if n > 1 {
      AcceptedBound(data, create, n - 1);
    }
  }

  /** One more row: the header adds nothing, a data row adds its user and,
      when the service accepts it, one created user. */
  lemma SubmittedStep(data: seq<seq<string>>, create: (nat, UserParams) -> bool, i: nat)
    requires i < |data|
    ensures Submitted(data, i + 1) == if i == 0 then [] else Submitted(data, i) + [RowUser(data[i])]
    ensures Accepted(data, create, i + 1)
            == Accepted(data, create, i) + (if i > 0 && create(i, RowUser(data[i])) then 1 else 0)
  {
  }

  /** importUsers: submits one user per row after the header, counts each
      answer as created or failed, and goes on after a failure. At the end every
      data row has been processed, and processed = created + failed. */
  method ImportUsers(data: seq<seq<string>>, create: (nat, UserParams) -> bool)
    returns (submitted: seq<UserParams>, rowsProcessed: nat, usersCreated: nat, usersFailed: nat)
    ensures submitted == Submitted(data, |data|)
    ensures rowsProcessed == |submitted| == (if |data| == 0 then 0 else |data| - 1)
    ensures usersCreated == Accepted(data, create, |data|)
    ensures forall k :: 0 <= k < |submitted| ==> submitted[k] == RowUser(data[k + 1])
    ensures rowsProcessed == usersCreated + usersFailed
  {
    submitted := [];
    rowsProcessed, usersCreated, usersFailed := 0, 0, 0;
    for i := 0 to |data|
      invariant submitted == Submitted(data, i)
      invariant rowsProcessed == |submitted|
      invariant usersCreated == Accepted(data, create, i)
      invariant rowsProcessed == usersCreated + usersFailed
    {
      SubmittedStep(data, create, i);
      if i > 0 {
        var newUser := UserFromRow(data[i]);
        submitted := submitted + [newUser];
        if !create(i, newUser) {
          usersFailed := usersFailed + 1;
        } else {
          usersCreated := usersCreated + 1;
        }
        rowsProcessed := rowsProcessed + 1;
      }
    }
    SubmittedRows(data, |data|);
  }
}
