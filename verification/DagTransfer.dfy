/** Balances that can be moved in parallel (src/precompiled/extension/DagTransferPrecompiled.cpp): the calls, the rows
    they are tagged with, and what a block of them does to the balances. */
module DagTransfer {
  import opened Options
  import opened Serial
  import opened Dag
  import DagRun

  const MAX_U256: nat := 0xFFFF_FFFF_FFFF_FFFF_FFFF_FFFF_FFFF_FFFF_FFFF_FFFF_FFFF_FFFF_FFFF_FFFF_FFFF_FFFF

  type u256 = x: nat | x <= MAX_U256 witness 0

  type Rows = map<string, u256>

  // src/precompiled/Common.h
  const SUCCESS := 0
  const OPEN_TABLE_FAILED := -51406
  const BALANCE_OVERFLOW := -51405
  const INSUFFICIENT_BALANCE := -51404
  const USER_ALREADY_EXIST := -51403
  const USER_NOT_EXIST := -51402
  const INVALID_AMOUNT := -51401
  const INVALID_USER_NAME := -51400

  datatype Call =
    | UserAdd(user: string, amount: u256)
    | UserSave(user: string, amount: u256)
    | UserDraw(user: string, amount: u256)
    | UserTransfer(from: string, to: string, amount: u256)
    | UserBalance(user: string)

  /** getParallelTag: the users whose rows the call is about. */
  function Tags(c: Call): seq<string> {
    match c
    case UserAdd(user, _) => if user != "" then [user] else []
    case UserSave(user, _) => if user != "" then [user] else []
    case UserDraw(user, _) => if user != "" then [user] else []
    case UserTransfer(from, to, _) => if from != "" && to != "" then [from, to] else []
    case UserBalance(_) => []
  }

  /** Addition of 256-bit numbers. */
  function Plus(a: u256, b: u256): u256 {
    if a + b <= MAX_U256 then a + b else a + b - MAX_U256 - 1
  }

  /** The sum wraps around exactly when it is over the largest number. */
  lemma OverflowIff(a: u256, b: u256)
    ensures Plus(a, b) < a <==> a + b > MAX_U256
  {
  }

  // ---------- what the calls do ----------

  /** The return code, and the rows behind. */
  function Execute(c: Call, rows: Rows): (int, Rows) {
    match c
    case UserAdd(user, amount) =>
      if user == "" then (INVALID_USER_NAME, rows)
      else if user in rows then (USER_ALREADY_EXIST, rows)
      else (SUCCESS, rows[user := amount])
    case UserSave(user, amount) =>
      if user == "" then (INVALID_USER_NAME, rows)
      else if amount == 0 then (INVALID_AMOUNT, rows)
      else if user !in rows then (SUCCESS, rows[user := amount])
      else if rows[user] + amount > MAX_U256 then (BALANCE_OVERFLOW, rows)
      else (SUCCESS, rows[user := rows[user] + amount])
    case UserDraw(user, amount) =>
      if user == "" then (INVALID_USER_NAME, rows)
      else if amount == 0 then (INVALID_AMOUNT, rows)
      else if user !in rows then (USER_NOT_EXIST, rows)
      else if rows[user] < amount then (INSUFFICIENT_BALANCE, rows)
      else (SUCCESS, rows[user := rows[user] - amount])
    case UserTransfer(from, to, amount) =>
      if from == "" || to == "" then (INVALID_USER_NAME, rows)
      else if amount == 0 then (INVALID_AMOUNT, rows)
      else if from == to then (SUCCESS, rows)
      else if from !in rows then (USER_NOT_EXIST, rows)
      else if rows[from] < amount then (INSUFFICIENT_BALANCE, rows)
      else
        var balance := if to in rows then rows[to] else 0;
        if balance + amount > MAX_U256 then (BALANCE_OVERFLOW, rows)
        else (SUCCESS, rows[from := rows[from] - amount][to := balance + amount])
    case UserBalance(user) =>
      if user == "" then (INVALID_USER_NAME, rows)
      else if user !in rows then (USER_NOT_EXIST, rows)
      else (SUCCESS, rows)
  }

  // ---------- which rows a call is about ----------

  /** A call that changes anything has tags: sending back the others loses nothing. */
  lemma ChangeHasTags(c: Call, rows: Rows)
    ensures Execute(c, rows).1 != rows ==> Tags(c) != []
  {
  }

  function WithAmount(c: Call, amount: u256): Call {
    match c
    case UserAdd(user, _) => UserAdd(user, amount)
    case UserSave(user, _) => UserSave(user, amount)
    case UserDraw(user, _) => UserDraw(user, amount)
    case UserTransfer(from, to, _) => UserTransfer(from, to, amount)
    case UserBalance(_) => c
  }

  function RowAt(rows: Rows, key: string): Option<u256> { if key in rows then Some(rows[key]) else None }

  ghost predicate SameBut(rows: Rows, rows': Rows, k: string) {
    forall key | key != k :: RowAt(rows', key) == RowAt(rows, key)
  }

  /** With some amount, the return code depends on what is in the row. */
  ghost predicate Decides(c: Call, k: string) {
    exists amount, rows, rows' :: SameBut(rows, rows', k) && Differs(WithAmount(c, amount), rows, rows')
  }

  predicate Differs(c: Call, rows: Rows, rows': Rows) { Execute(c, rows).0 != Execute(c, rows').0 }

  /** Of the calls with tags, those that are not transfers to oneself have exactly the tags of the rows that decide what
      they do, and those that are depend on no row. */
  lemma TagsDecide(c: Call, k: string)
    requires Tags(c) != []
    ensures Decides(c, k) <==> k in Tags(c) && !(c.UserTransfer? && c.from == c.to)
  {
    if k in Tags(c) && !(c.UserTransfer? && c.from == c.to) {
      if c.UserAdd? { Decided(c, k, 0, map[], map[k := 0]); }
      else if c.UserSave? { Decided(c, k, 1, map[], map[k := MAX_U256]); }
      else if c.UserDraw? || k == c.from { Decided(c, k, 1, map[], map[k := 1]); }
      else { Decided(c, k, 1, map[c.from := 1], map[c.from := 1, k := MAX_U256]); }
    }
    if Decides(c, k) {
      var amount, rows, rows' :| SameBut(rows, rows', k) && Differs(WithAmount(c, amount), rows, rows');
      if k !in Tags(c) { OnlyTagsDecide(WithAmount(c, amount), rows, rows'); }
    }
  }

  lemma Decided(c: Call, k: string, amount: u256, rows: Rows, rows': Rows)
    requires SameBut(rows, rows', k) && Differs(WithAmount(c, amount), rows, rows')
    ensures Decides(c, k)
  {
  }

  /** The return code depends on the rows that the tags name only. */
  lemma OnlyTagsDecide(c: Call, rows: Rows, rows': Rows)
    requires Tags(c) != [] && forall key | key in Tags(c) :: RowAt(rows', key) == RowAt(rows, key)
    ensures Execute(c, rows').0 == Execute(c, rows).0
  {
    match c
    case UserAdd(user, _) => assert user in Tags(c);
    case UserSave(user, _) => assert user in Tags(c);
    case UserDraw(user, _) => assert user in Tags(c);
    case UserTransfer(from, to, _) => assert from in Tags(c) && to in Tags(c);
    case UserBalance(_) =>
  }

  // ---------- the code ----------

  class Table {
    var rows: Rows

    constructor ()
      ensures rows == map[]
    {
      rows := map[];
    }

    method GetRow(key: string) returns (entry: Option<u256>)
      ensures entry == if key in rows then Some(rows[key]) else None
    {
      if key in rows { return Some(rows[key]); }
      return None;
    }

    method SetRow(key: string, balance: u256)
      modifies this
      ensures rows == old(rows)[key := balance]
    {
      rows := rows[key := balance];
    }
  }

  method UserAddCall(table: Table?, user: string, amount: u256) returns (ret: int)
    modifies table
    ensures table != null ==> (ret, table.rows) == Execute(UserAdd(user, amount), old(table.rows))
    ensures table == null ==> ret == if user == "" then INVALID_USER_NAME else OPEN_TABLE_FAILED
  {
    if user == "" {
      return INVALID_USER_NAME;
    }
    if table == null {
      return OPEN_TABLE_FAILED;
    }
    var entry := table.GetRow(user);
    if entry.Some? {
      return USER_ALREADY_EXIST;
    }
    table.SetRow(user, amount);
    return SUCCESS;
  }

  method UserSaveCall(table: Table?, user: string, amount: u256) returns (ret: int)
    modifies table
    ensures table != null ==> (ret, table.rows) == Execute(UserSave(user, amount), old(table.rows))
    ensures table == null ==>
      ret == if user == "" then INVALID_USER_NAME else if amount == 0 then INVALID_AMOUNT else OPEN_TABLE_FAILED
  {
    if user == "" {
      return INVALID_USER_NAME;
    }
    if amount == 0 {
      return INVALID_AMOUNT;
    }
    if table == null {
      return OPEN_TABLE_FAILED;
    }
    var entry := table.GetRow(user);
    if entry.None? {
      table.SetRow(user, amount);
    } else {
      var balance := entry.value;
      var newBalance := Plus(balance, amount);
      if newBalance < balance {
        return BALANCE_OVERFLOW;
      }
      table.SetRow(user, newBalance);
    }
    return SUCCESS;
  }

  method UserDrawCall(table: Table?, user: string, amount: u256) returns (ret: int)
    modifies table
    ensures table != null ==> (ret, table.rows) == Execute(UserDraw(user, amount), old(table.rows))
    ensures table == null ==>
      ret == if user == "" then INVALID_USER_NAME else if amount == 0 then INVALID_AMOUNT else OPEN_TABLE_FAILED
  {
    if user == "" {
      return INVALID_USER_NAME;
    }
    if amount == 0 {
      return INVALID_AMOUNT;
    }
    if table == null {
      return OPEN_TABLE_FAILED;
    }
    var entry := table.GetRow(user);
    if entry.None? {
      return USER_NOT_EXIST;
    }
    var balance := entry.value;
    if balance < amount {
      return INSUFFICIENT_BALANCE;
    }
    table.SetRow(user, balance - amount);
    return SUCCESS;
  }

  method UserBalanceCall(table: Table?, user: string) returns (ret: int, balance: u256)
    ensures table != null ==> (ret, table.rows) == Execute(UserBalance(user), table.rows)
    ensures balance == if table != null && user != "" && user in table.rows then table.rows[user] else 0
    ensures table == null ==> ret == if user == "" then INVALID_USER_NAME else OPEN_TABLE_FAILED
  {
    balance := 0;
    if user == "" {
      return INVALID_USER_NAME, balance;
    }
    if table == null {
      return OPEN_TABLE_FAILED, balance;
    }
    var entry := table.GetRow(user);
    if entry.None? {
      return USER_NOT_EXIST, balance;
    }
    balance := entry.value;
    return SUCCESS, balance;
  }

  function NoTable(from: string, to: string, amount: u256): int {
    if from == "" || to == "" then INVALID_USER_NAME
    else if amount == 0 then INVALID_AMOUNT
    else if from == to then SUCCESS
    else OPEN_TABLE_FAILED
  }

  method UserTransferCall(table: Table?, fromUser: string, toUser: string, amount: u256) returns (ret: int)
    modifies table
    ensures table != null ==> (ret, table.rows) == Execute(UserTransfer(fromUser, toUser, amount), old(table.rows))
    ensures table == null ==> ret == NoTable(fromUser, toUser, amount)
  {
    if fromUser == "" || toUser == "" {
      return INVALID_USER_NAME;
    }
    if amount == 0 {
      return INVALID_AMOUNT;
    }
    if fromUser == toUser {
      return SUCCESS;
    }
    if table == null {
      return OPEN_TABLE_FAILED;
    }
    var entry := table.GetRow(fromUser);
    if entry.None? {
      return USER_NOT_EXIST;
    }
    var fromUserBalance := entry.value;
    if fromUserBalance < amount {
      return INSUFFICIENT_BALANCE;
    }
    var toUserBalance: u256 := 0;
    entry := table.GetRow(toUser);
    if entry.None? {
      table.SetRow(toUser, 0);
    } else {
      toUserBalance := entry.value;
    }
    if Plus(toUserBalance, amount) < toUserBalance {
      return BALANCE_OVERFLOW;
    }
    table.SetRow(fromUser, fromUserBalance - amount);
    table.SetRow(toUser, Plus(toUserBalance, amount));
    assert table.rows == old(table.rows)[fromUser := fromUserBalance - amount][toUser := Plus(toUserBalance, amount)];
    return SUCCESS;
  }

  // ---------- totals ----------

  ghost function Total(rows: Rows): nat {
    if rows == map[] then 0
    else
      var k :| k in rows;
      rows[k] + Total(rows - {k})
  }

  lemma {:induction false} TotalWithout(rows: Rows, k: string)
    requires k in rows
    ensures Total(rows) == rows[k] + Total(rows - {k})
    decreases |rows|
  {
    var j :| j in rows && Total(rows) == rows[j] + Total(rows - {j});
    if j != k {
      TotalWithout(rows - {j}, k);
      TotalWithout(rows - {k}, j);
      assert rows - {j} - {k} == rows - {k} - {j};
    }
  }

  lemma TotalSet(rows: Rows, k: string, v: u256)
    ensures Total(rows[k := v]) + (if k in rows then rows[k] else 0) == Total(rows) + v
  {
    TotalWithout(rows[k := v], k);
    if k in rows {
      TotalWithout(rows, k);
      assert rows[k := v] - {k} == rows - {k};
    } else {
      assert rows[k := v] - {k} == rows;
    }
  }

  /** What a call that succeeds adds to the total. */
  function Change(c: Call): int {
    match c
    case UserAdd(_, amount) => amount
    case UserSave(_, amount) => amount
    case UserDraw(_, amount) => -(amount as int)
    case _ => 0
  }

  lemma TransferTotal(rows: Rows, from: string, to: string, amount: u256)
    requires from in rows && rows[from] >= amount && from != to
    ensures
      var balance := if to in rows then rows[to] else 0;
      balance + amount <= MAX_U256 ==> Total(rows[from := rows[from] - amount][to := balance + amount]) == Total(rows)
  {
    var less := rows[from := rows[from] - amount];
    TotalSet(rows, from, rows[from] - amount);
    var balance := if to in rows then rows[to] else 0;
    if balance + amount <= MAX_U256 { TotalSet(less, to, balance + amount); }
  }

  ghost predicate Accounts(c: Call, rows: Rows) {
    var (ret, after) := Execute(c, rows);
    if ret == SUCCESS then Total(after) == Total(rows) + Change(c) else after == rows
  }

  lemma AddAccounts(user: string, amount: u256, rows: Rows)
    ensures Accounts(UserAdd(user, amount), rows)
  {
    TotalSet(rows, user, amount);
  }

  lemma SaveAccounts(user: string, amount: u256, rows: Rows)
    ensures Accounts(UserSave(user, amount), rows)
  {
    var balance := if user in rows then rows[user] else 0;
    if balance + amount <= MAX_U256 { TotalSet(rows, user, balance + amount); }
  }

  lemma DrawAccounts(user: string, amount: u256, rows: Rows)
    ensures Accounts(UserDraw(user, amount), rows)
  {
    if user in rows && rows[user] >= amount { TotalSet(rows, user, rows[user] - amount); }
  }

  lemma TransferAccounts(from: string, to: string, amount: u256, rows: Rows)
    ensures Accounts(UserTransfer(from, to, amount), rows)
  {
    if from in rows && rows[from] >= amount && from != to { TransferTotal(rows, from, to, amount); }
  }

  /** A call changes the total by its change when it succeeds, and nothing at all when it fails. */
  lemma TotalChange(c: Call, rows: Rows)
    ensures Accounts(c, rows)
  {
    match c
    case UserAdd(user, amount) => AddAccounts(user, amount, rows);
    case UserSave(user, amount) => SaveAccounts(user, amount, rows);
    case UserDraw(user, amount) => DrawAccounts(user, amount, rows);
    case UserTransfer(from, to, amount) => TransferAccounts(from, to, amount, rows);
    case UserBalance(_) =>
  }

  // ---------- a block of calls, run in parallel ----------

  /** A call as its accesses to the table: what it has read so far, or its return code. */
  datatype Local = Begin | Read(row: Option<u256>) | Both(sender: u256, other: Option<u256>)
    | Added(sender: u256, receiver: u256) | Paid(receiver: u256) | Stopped(ret: int)

  const ACCESSES: nat := 5

  /** The next access, and the rows it writes. */
  function Access(c: Call, l: Local, rows: Rows): (Local, Rows) {
    if l.Stopped? then (l, map[])
    else match c
      case UserAdd(user, amount) => AddAccess(user, amount, l, rows)
      case UserSave(user, amount) => SaveAccess(user, amount, l, rows)
      case UserDraw(user, amount) => DrawAccess(user, amount, l, rows)
      case UserTransfer(from, to, amount) => TransferAccess(from, to, amount, l, rows)
      case UserBalance(_) => (l, map[])
  }

  function AddAccess(user: string, amount: u256, l: Local, rows: Rows): (Local, Rows) {
    if l.Begin? then if user == "" then (Stopped(INVALID_USER_NAME), map[]) else (Read(RowAt(rows, user)), map[])
    else if l.Read? then
      if l.row.Some? then (Stopped(USER_ALREADY_EXIST), map[]) else (Stopped(SUCCESS), map[user := amount])
    else (l, map[])
  }

  function SaveAccess(user: string, amount: u256, l: Local, rows: Rows): (Local, Rows) {
    if l.Begin? then
      if user == "" then (Stopped(INVALID_USER_NAME), map[])
      else if amount == 0 then (Stopped(INVALID_AMOUNT), map[])
      else (Read(RowAt(rows, user)), map[])
    else if l.Read? then
      if l.row.None? then (Stopped(SUCCESS), map[user := amount])
      else if Plus(l.row.value, amount) < l.row.value then (Stopped(BALANCE_OVERFLOW), map[])
      else (Stopped(SUCCESS), map[user := Plus(l.row.value, amount)])
    else (l, map[])
  }

  function DrawAccess(user: string, amount: u256, l: Local, rows: Rows): (Local, Rows) {
    if l.Begin? then
      if user == "" then (Stopped(INVALID_USER_NAME), map[])
      else if amount == 0 then (Stopped(INVALID_AMOUNT), map[])
      else (Read(RowAt(rows, user)), map[])
    else if l.Read? then
      if l.row.None? then (Stopped(USER_NOT_EXIST), map[])
      else if l.row.value < amount then (Stopped(INSUFFICIENT_BALANCE), map[])
      else (Stopped(SUCCESS), map[user := l.row.value - amount])
    else (l, map[])
  }

  function TransferAccess(from: string, to: string, amount: u256, l: Local, rows: Rows): (Local, Rows) {
    if l.Begin? then
      if from == "" || to == "" then (Stopped(INVALID_USER_NAME), map[])
      else if amount == 0 then (Stopped(INVALID_AMOUNT), map[])
      else if from == to then (Stopped(SUCCESS), map[])
      else (Read(RowAt(rows, from)), map[])
    else if l.Read? then
      if l.row.None? then (Stopped(USER_NOT_EXIST), map[])
      else if l.row.value < amount then (Stopped(INSUFFICIENT_BALANCE), map[])
      else (Both(l.row.value, RowAt(rows, to)), map[])
    else if l.Both? then
      if l.other.None? then (Added(l.sender, 0), map[to := 0])
      else if Plus(l.other.value, amount) < l.other.value then (Stopped(BALANCE_OVERFLOW), map[])
      else (Added(l.sender, l.other.value), map[])
    else if l.Added? && l.sender >= amount then (Paid(l.receiver), map[from := l.sender - amount])
    else if l.Paid? then (Stopped(SUCCESS), map[to := Plus(l.receiver, amount)])
    else (l, map[])
  }

  /** A block: calls without tags are sent back, the others are executed. */
  function Block(calls: seq<Call>, rows: Rows): Program<string, u256, Local> {
    Program(
      |calls|,
      rows,
      (id: nat) => if id < |calls| && Tags(calls[id]) != [] then ACCESSES else 0,
      (id: nat) => Begin,
      (id: nat, j: nat, l: Local, s: Rows) => if id < |calls| then Access(calls[id], l, s) else (l, map[]),
      (id: nat) => if id < |calls| then (set k | k in Tags(calls[id])) else {})
  }

  /** The rows behind the first k calls, in order. */
  function ExecuteAll(calls: seq<Call>, rows: Rows, k: nat): Rows
    requires k <= |calls|
  {
    if k == 0 then rows else Execute(calls[k - 1], ExecuteAll(calls, rows, k - 1)).1
  }

  /** A call with tags reads and writes only the rows they name. */
  lemma AccessConfined(c: Call, l: Local, s: Rows, t: Rows)
    requires Tags(c) != [] && forall k | k in Tags(c) :: RowAt(s, k) == RowAt(t, k)
    ensures Access(c, l, s) == Access(c, l, t)
    ensures forall k | k in Access(c, l, s).1 :: k in Tags(c)
  {
    match c
    case UserAdd(user, _) => assert user in Tags(c);
    case UserSave(user, _) => assert user in Tags(c);
    case UserDraw(user, _) => assert user in Tags(c);
    case UserTransfer(from, to, _) => assert from in Tags(c) && to in Tags(c);
    case UserBalance(_) =>
  }

  /** The state behind j accesses of a call. */
  function After(c: Call, rows: Rows, j: nat): (Local, Rows) {
    if j == 0 then (Begin, rows)
    else
      var (l, t) := After(c, rows, j - 1);
      var (l', writes) := Access(c, l, t);
      (l', t + writes)
  }

  lemma Stays(c: Call, rows: Rows, j: nat)
    requires After(c, rows, j).0.Stopped?
    ensures After(c, rows, j + 1) == After(c, rows, j)
  {
    assert After(c, rows, j).1 + map[] == After(c, rows, j).1;
  }

  /** An access without writes. */
  lemma Reads(c: Call, rows: Rows, j: nat, l: Local)
    requires After(c, rows, j) == (l, rows) && Access(c, l, rows).1 == map[]
    ensures After(c, rows, j + 1) == (Access(c, l, rows).0, rows)
  {
    assert rows + map[] == rows;
  }

  /** An access that writes one row. */
  lemma Writes(c: Call, rows: Rows, j: nat, l: Local, before: Rows, key: string, v: u256)
    requires After(c, rows, j) == (l, before) && Access(c, l, before).1 == map[key := v]
    ensures After(c, rows, j + 1) == (Access(c, l, before).0, before[key := v])
  {
    assert before + map[key := v] == before[key := v];
  }

  lemma {:induction false} StaysOn(c: Call, rows: Rows, j: nat, k: nat)
    requires j <= k && After(c, rows, j).0.Stopped?
    ensures After(c, rows, k) == After(c, rows, j)
    decreases k
  {
    if j < k {
      StaysOn(c, rows, j, k - 1);
      Stays(c, rows, k - 1);
    }
  }

  /** The last two accesses of a transfer. */
  lemma Pays(c: Call, rows: Rows, t: Rows, paid: u256, balance: u256)
    requires c.UserTransfer? && After(c, rows, 3) == (Added(paid, balance), t)
    requires paid >= c.amount && balance + c.amount <= MAX_U256
    ensures After(c, rows, 5) == (Stopped(SUCCESS), t[c.from := paid - c.amount][c.to := balance + c.amount])
  {
    Writes(c, rows, 3, Added(paid, balance), t, c.from, paid - c.amount);
    Writes(c, rows, 4, Paid(balance), t[c.from := paid - c.amount], c.to, balance + c.amount);
  }

  /** A transfer that gets past its checks, to a user that is new. */
  lemma ToNewUser(c: Call, rows: Rows, paid: u256)
    requires c.UserTransfer? && After(c, rows, 2) == (Both(paid, None), rows) && paid >= c.amount
    ensures After(c, rows, 5) == (Stopped(SUCCESS), rows[c.from := paid - c.amount][c.to := c.amount])
  {
    Writes(c, rows, 2, Both(paid, None), rows, c.to, 0);
    Pays(c, rows, rows[c.to := 0], paid, 0);
    assert rows[c.to := 0][c.from := paid - c.amount][c.to := c.amount] ==
           rows[c.from := paid - c.amount][c.to := c.amount];
  }

  /** And to a user that has a balance. */
  lemma ToKnownUser(c: Call, rows: Rows, paid: u256, balance: u256)
    requires c.UserTransfer? && After(c, rows, 2) == (Both(paid, Some(balance)), rows) && paid >= c.amount
    ensures After(c, rows, 5) ==
      if balance + c.amount > MAX_U256 then (Stopped(BALANCE_OVERFLOW), rows)
      else (Stopped(SUCCESS), rows[c.from := paid - c.amount][c.to := balance + c.amount])
  {
    Reads(c, rows, 2, Both(paid, Some(balance)));
    if balance + c.amount > MAX_U256 { StaysOn(c, rows, 3, 5); } else { Pays(c, rows, rows, paid, balance); }
  }

  lemma {:induction false} TransferAccesses(c: Call, rows: Rows)
    requires c.UserTransfer? && Tags(c) != [] && After(c, rows, 1) == (Read(RowAt(rows, c.from)), rows)
    requires c.amount != 0 && c.from != c.to && c.from in rows && rows[c.from] >= c.amount
    ensures var (ret, after) := Execute(c, rows); After(c, rows, 5) == (Stopped(ret), after)
  {
    Reads(c, rows, 1, Read(Some(rows[c.from])));
    if c.to in rows { ToKnownUser(c, rows, rows[c.from], rows[c.to]); } else { ToNewUser(c, rows, rows[c.from]); }
  }

  /** The accesses of the calls about one user. */
  lemma SingleAccesses(c: Call, rows: Rows)
    requires !c.UserTransfer? && Tags(c) != [] && After(c, rows, 1) == (Read(RowAt(rows, c.user)), rows)
    requires !c.UserAdd? ==> c.amount != 0
    ensures var (ret, after) := Execute(c, rows); After(c, rows, ACCESSES) == (Stopped(ret), after)
  {
    var l := Read(RowAt(rows, c.user));
    var (ret, after) := Execute(c, rows);
    if ret == SUCCESS {
      Writes(c, rows, 1, l, rows, c.user, after[c.user]);
    } else {
      Reads(c, rows, 1, l);
    }
    StaysOn(c, rows, 2, ACCESSES);
  }

  /** A call's accesses, one after the other, do what the call does. */
  lemma AccessesExecute(c: Call, rows: Rows)
    requires Tags(c) != []
    ensures var (ret, after) := Execute(c, rows); After(c, rows, ACCESSES) == (Stopped(ret), after)
  {
    assert After(c, rows, 0) == (Begin, rows);
    Reads(c, rows, 0, Begin);
    if After(c, rows, 1).0.Stopped? {
      StaysOn(c, rows, 1, ACCESSES);
    } else if !c.UserTransfer? {
      SingleAccesses(c, rows);
    } else if c.from in rows && rows[c.from] >= c.amount {
      TransferAccesses(c, rows);
    } else {
      Reads(c, rows, 1, Read(RowAt(rows, c.from)));
      StaysOn(c, rows, 2, ACCESSES);
    }
  }

  lemma {:induction false} AloneIsAfter(calls: seq<Call>, rows: Rows, id: nat, j: nat, s: Rows)
    requires id < |calls|
    ensures Alone(Block(calls, rows), id, j, s) == After(calls[id], s, j)
  {
    if j > 0 { AloneIsAfter(calls, rows, id, j - 1, s); }
  }

  lemma OneCall(calls: seq<Call>, rows: Rows, id: nat, s: Rows)
    requires id < |calls|
    ensures Alone(Block(calls, rows), id, Block(calls, rows).steps(id), s).1 == Execute(calls[id], s).1
  {
    if Tags(calls[id]) != [] {
      AloneIsAfter(calls, rows, id, ACCESSES, s);
      AccessesExecute(calls[id], s);
    } else {
      ChangeHasTags(calls[id], s);
    }
  }

  lemma {:induction false} InOrderIsExecuteAll(calls: seq<Call>, rows: Rows, k: nat)
    requires k <= |calls|
    ensures InOrder(Block(calls, rows), k) == ExecuteAll(calls, rows, k)
  {
    if k > 0 {
      InOrderIsExecuteAll(calls, rows, k - 1);
      OneCall(calls, rows, k - 1, ExecuteAll(calls, rows, k - 1));
    }
  }

  function AllTags(calls: seq<Call>): seq<seq<string>> { seq(|calls|, i requires 0 <= i < |calls| => Tags(calls[i])) }

  /** The tags name every row a call of the block touches. */
  lemma TagsNameRows(calls: seq<Call>, rows: Rows)
    requires |calls| < INVALID_ID
    ensures DagRun.NamesItsRows(Block(calls, rows), AllTags(calls))
  {
    var p := Block(calls, rows);
    forall id: nat, j: nat, l: Local, s: Rows, t: Rows
      | id < p.n && j < p.steps(id) && (forall r | r in p.uses(id) :: AgreeOn(s, t, r))
      ensures p.step(id, j, l, s) == p.step(id, j, l, t) && p.step(id, j, l, s).1.Keys <= p.uses(id)
    {
      var c := calls[id];
      forall k | k in Tags(c) ensures RowAt(s, k) == RowAt(t, k) { assert k in p.uses(id) && AgreeOn(s, t, k); }
      AccessConfined(c, l, s, t);
    }
  }

  /** A block run in parallel by any number of workers leaves the balances of its calls executed in order. */
  lemma ParallelBlock(calls: seq<Call>, rows: Rows, run: seq<DagRun.Run<string, u256, Local>>, i: nat)
    requires |calls| < INVALID_ID && i < |run|
    requires DagRun.Runs(Block(calls, rows), GraphOf(AllTags(calls), |calls|, |calls|), run)
    requires DagRun.HasFinished(Block(calls, rows), run[i])
    ensures run[i].tx.store == ExecuteAll(calls, rows, |calls|)
  {
    TagsNameRows(calls, rows);
    DagRun.ParallelEqualsInOrder(Block(calls, rows), AllTags(calls), run, i);
    InOrderIsExecuteAll(calls, rows, |calls|);
  }

  lemma {:induction false} TransfersKeepTotal(calls: seq<Call>, rows: Rows, k: nat)
    requires k <= |calls| && forall i | 0 <= i < |calls| :: calls[i].UserTransfer? || calls[i].UserBalance?
    ensures Total(ExecuteAll(calls, rows, k)) == Total(rows)
  {
    if k > 0 {
      TransfersKeepTotal(calls, rows, k - 1);
      TotalChange(calls[k - 1], ExecuteAll(calls, rows, k - 1));
    }
  }

  /** However a block of transfers is run in parallel, the total of all balances is what it was. */
  lemma ParallelTransfersKeepTotal(calls: seq<Call>, rows: Rows, run: seq<DagRun.Run<string, u256, Local>>, i: nat)
    requires |calls| < INVALID_ID && i < |run|
    requires forall j | 0 <= j < |calls| :: calls[j].UserTransfer? || calls[j].UserBalance?
    requires DagRun.Runs(Block(calls, rows), GraphOf(AllTags(calls), |calls|, |calls|), run)
    requires DagRun.HasFinished(Block(calls, rows), run[i])
    ensures Total(run[i].tx.store) == Total(rows)
  {
    ParallelBlock(calls, rows, run, i);
    TransfersKeepTotal(calls, rows, |calls|);
  }
}
