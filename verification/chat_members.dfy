/**
 * The `chat_members` table and the rules the chats handler applies to it:
 * the default User member of a new chat, the removal of members no longer
 * listed, and the add-or-update of every listed member.  A row's `id` is its
 * primary key; ids are handed out in increasing order from `nextId`.
 */
module ChatMembers {
  import opened Wrappers
  import opened SeqFacts

  type Config = map<string, string>

  const UserType := "User"
  const AgentType := "Agent"

  /** One entry of the `members` list a create or update request carries. */
  datatype MemberInput = MemberInput(userId: string, userType: string, config: Config)

  /** One row of the `chat_members` table. */
  datatype ChatMember = ChatMember(id: nat, chatId: nat, userId: string, userType: string, config: Config)

  /** The table's rows with the next free primary key. */
  datatype Table = Table(rows: seq<ChatMember>, nextId: nat)

  /** Primary keys are unique and below the next free one. */
  predicate TableValid(rows: seq<ChatMember>, next: nat) {
    && (forall a, b :: a in rows && b in rows && a.id == b.id ==> a == b)
    && (forall m :: m in rows ==> m.id < next)
  }

  predicate Listed(inputs: seq<MemberInput>, userId: string) {
    exists k :: 0 <= k < |inputs| && inputs[k].userId == userId
  }

  predicate HasUser(inputs: seq<MemberInput>) {
    exists k :: 0 <= k < |inputs| && inputs[k].userType == UserType
  }

  /** `members.findIndex((m) => m.userType === "User")`. */
  function IndexOfUserType(inputs: seq<MemberInput>): (r: int)
    ensures -1 <= r < |inputs|
    ensures r >= 0 ==> inputs[r].userType == UserType
    ensures forall k :: 0 <= k < |inputs| && (r == -1 || k < r) ==> inputs[k].userType != UserType
  {
    if |inputs| == 0 then -1
    else if inputs[0].userType == UserType then 0
    else
      var r := IndexOfUserType(inputs[1..]);
      if r == -1 then -1 else r + 1
  }

  /** `members.findIndex((m) => m.userId === userId)`. */
  function IndexOfUserId(inputs: seq<MemberInput>, userId: string): (r: int)
    ensures -1 <= r < |inputs|
    ensures r >= 0 ==> inputs[r].userId == userId
    ensures forall k :: 0 <= k < |inputs| && (r == -1 || k < r) ==> inputs[k].userId != userId
  {
    if |inputs| == 0 then -1
    else if inputs[0].userId == userId then 0
    else
      var r := IndexOfUserId(inputs[1..], userId);
      if r == -1 then -1 else r + 1
  }

  /** The entry a run of updates leaves in effect: the last one with `userId`. */
  function LastIndexOfUserId(inputs: seq<MemberInput>, userId: string): (r: int)
    ensures -1 <= r < |inputs|
    ensures r >= 0 ==> inputs[r].userId == userId
    ensures forall k :: 0 <= k < |inputs| && r < k ==> inputs[k].userId != userId
  {
    if |inputs| == 0 then -1
    else if inputs[|inputs| - 1].userId == userId then |inputs| - 1
    else LastIndexOfUserId(inputs[..|inputs| - 1], userId)
  }

  /** The User member a new chat gets when the request names none: the profile, speaking the native language. */
  function DefaultUser(profileId: string, nativeLanguage: string): MemberInput {
    MemberInput(profileId, UserType, map["language" := nativeLanguage])
  }

  /**
   * The member list `create` works through: the request's list, with the
   * default User member pushed when it has no User member.
   */
  function WithDefaultUser(inputs: seq<MemberInput>, profileId: string, nativeLanguage: string): (r: seq<MemberInput>)
    ensures HasUser(r)
    ensures inputs <= r && |r| <= |inputs| + 1
    ensures HasUser(inputs) <==> r == inputs
    ensures r != inputs ==> r[|inputs|] == DefaultUser(profileId, nativeLanguage)
  {
    if IndexOfUserType(inputs) < 0 then
      var r := inputs + [DefaultUser(profileId, nativeLanguage)];
      assert r[|inputs|].userType == UserType;
      r
    else inputs
  }

  /** The rows created for `inputs` in chat `chatId`, one per entry in order, keyed from `first` upwards. */
  function NewRows(chatId: nat, inputs: seq<MemberInput>, first: nat): (r: seq<ChatMember>)
    ensures |r| == |inputs|
  {
    seq(|inputs|, k requires 0 <= k < |inputs| =>
      ChatMember(first + k, chatId, inputs[k].userId, inputs[k].userType, inputs[k].config))
  }

  /**
   * The rows `create` adds: one per entry, all in the new chat, with fresh
   * consecutive keys; at least one of them is a User member.
   */
  lemma CreatedRows(chatId: nat, inputs: seq<MemberInput>, profileId: string, nativeLanguage: string, first: nat)
    ensures var list := WithDefaultUser(inputs, profileId, nativeLanguage);
      var rows := NewRows(chatId, list, first);
      && |rows| == |list|
      && (forall k :: 0 <= k < |rows| ==> rows[k].id == first + k && rows[k].chatId == chatId && rows[k].userId == list[k].userId)
      && (exists m :: m in rows && m.chatId == chatId && m.userType == UserType)
  {
    var list := WithDefaultUser(inputs, profileId, nativeLanguage);
    var k :| 0 <= k < |list| && list[k].userType == UserType;
    assert NewRows(chatId, list, first)[k].userType == UserType;
  }

  /** `chat.members`: the chat's rows, in table order. */
  function MembersOf(rows: seq<ChatMember>, chatId: nat): seq<ChatMember> {
    if |rows| == 0 then []
    else
      var last := rows[|rows| - 1];
      MembersOf(rows[..|rows| - 1], chatId) + (if last.chatId == chatId then [last] else [])
  }

  /** A chat's members are exactly the table's rows with its id. */
  lemma {:induction false} MembersOfMembers(rows: seq<ChatMember>, chatId: nat)
    ensures forall m :: m in MembersOf(rows, chatId) <==> m in rows && m.chatId == chatId
  {
    if |rows| > 0 {
      var n := |rows|;
      var last := rows[n - 1];
      MembersOfMembers(rows[..n - 1], chatId);
      Snoc(rows);
      assert MembersOf(rows, chatId) == MembersOf(rows[..n - 1], chatId) + (if last.chatId == chatId then [last] else []);
    }
  }

  /** `member.destroy()`: the row with key `id` is gone. */
  function RemoveId(rows: seq<ChatMember>, id: nat): seq<ChatMember> {
    if |rows| == 0 then []
    else
      var last := rows[|rows| - 1];
      RemoveId(rows[..|rows| - 1], id) + (if last.id == id then [] else [last])
  }

  /** Destroying a row removes the rows with its key and keeps every other row. */
  lemma {:induction false} RemoveIdMembers(rows: seq<ChatMember>, id: nat)
    ensures forall m :: m in RemoveId(rows, id) <==> m in rows && m.id != id
  {
    if |rows| > 0 {
      var n := |rows|;
      var last := rows[n - 1];
      RemoveIdMembers(rows[..n - 1], id);
      Snoc(rows);
      assert RemoveId(rows, id) == RemoveId(rows[..n - 1], id) + (if last.id == id then [] else [last]);
    }
  }

  /** A member `update` destroys: in the chat, not a User, and not listed in the request. */
  predicate Doomed(m: ChatMember, chatId: nat, inputs: seq<MemberInput>) {
    m.chatId == chatId && m.userType != UserType && !Listed(inputs, m.userId)
  }

  /** The removal loop of `update` over the members in `victims`. */
  function Prune(rows: seq<ChatMember>, victims: seq<ChatMember>, inputs: seq<MemberInput>): seq<ChatMember>
    decreases |victims|
  {
    if |victims| == 0 then rows
    else
      var last := victims[|victims| - 1];
      var pruned := Prune(rows, victims[..|victims| - 1], inputs);
      if last.userType == UserType || IndexOfUserId(inputs, last.userId) >= 0 then pruned
      else RemoveId(pruned, last.id)
  }

  /** Pruning removes exactly the victims that are neither Users nor listed. */
  lemma {:induction false} PruneMembers(rows: seq<ChatMember>, victims: seq<ChatMember>, inputs: seq<MemberInput>, next: nat)
    requires TableValid(rows, next)
    requires forall v :: v in victims ==> v in rows
    ensures forall m :: m in Prune(rows, victims, inputs) <==>
      m in rows && !(m in victims && m.userType != UserType && !Listed(inputs, m.userId))
  {
    if |victims| > 0 {
      var n := |victims|;
      var last := victims[n - 1];
      var init := victims[..n - 1];
      Snoc(victims);
      assert forall v :: v in victims <==> v in init || v == last;
      PruneMembers(rows, init, inputs, next);
      RemoveIdMembers(Prune(rows, init, inputs), last.id);
    }
  }

  /** `chatMember.update(member)`: the row takes the entry's user, type and configuration. */
  function Assigned(m: ChatMember, input: MemberInput): ChatMember {
    m.(userId := input.userId, userType := input.userType, config := input.config)
  }

  /** `chatMember.update(member)` on the row with key `id`. */
  function UpdateId(rows: seq<ChatMember>, id: nat, input: MemberInput): (r: seq<ChatMember>)
    ensures |r| == |rows|
  {
    seq(|rows|, k requires 0 <= k < |rows| => if rows[k].id == id then Assigned(rows[k], input) else rows[k])
  }

  /** `chat.members.find((m) => m.userId === member.userId)`: the first row with that user. */
  function FirstWithUser(snapshot: seq<ChatMember>, userId: string): (r: Option<ChatMember>)
    ensures r.Some? ==> exists i :: 0 <= i < |snapshot| && snapshot[i] == r.value && r.value.userId == userId
                                 && forall j :: 0 <= j < i ==> snapshot[j].userId != userId
    ensures r.None? <==> forall i :: 0 <= i < |snapshot| ==> snapshot[i].userId != userId
  {
    if |snapshot| == 0 then None
    else if snapshot[0].userId == userId then Some(snapshot[0])
    else FirstWithUser(snapshot[1..], userId)
  }

  /** The row of the snapshot that entries with this row's user update. */
  predicate Target(snapshot: seq<ChatMember>, m: ChatMember) {
    var found := FirstWithUser(snapshot, m.userId);
    found.Some? && found.value.id == m.id
  }

  /** The add-or-update loop of `update` over the entries of `inputs`. */
  function Upserted(t: Table, snapshot: seq<ChatMember>, chatId: nat, inputs: seq<MemberInput>): Table
    decreases |inputs|
  {
    if |inputs| == 0 then t
    else
      var p := Upserted(t, snapshot, chatId, inputs[..|inputs| - 1]);
      var member := inputs[|inputs| - 1];
      match FirstWithUser(snapshot, member.userId)
      case Some(row) => p.(rows := UpdateId(p.rows, row.id, member))
      case None => Table(p.rows + [ChatMember(p.nextId, chatId, member.userId, member.userType, member.config)], p.nextId + 1)
  }

  /**
   * What the add-or-update loop leaves in a row: a row targeted by a listed
   * user carries the last entry for that user; any other row is unchanged.
   * The key, the chat and the user never change.
   */
  function Refreshed(m: ChatMember, snapshot: seq<ChatMember>, inputs: seq<MemberInput>): (r: ChatMember)
    ensures r.id == m.id && r.chatId == m.chatId && r.userId == m.userId
    ensures r != m ==> Target(snapshot, m) && exists k :: 0 <= k < |inputs| && inputs[k].userId == m.userId && r == Assigned(m, inputs[k])
  {
    var last := LastIndexOfUserId(inputs, m.userId);
    if Target(snapshot, m) && last >= 0 then Assigned(m, inputs[last]) else m
  }

  function RefreshedAll(rows: seq<ChatMember>, snapshot: seq<ChatMember>, inputs: seq<MemberInput>): (r: seq<ChatMember>)
    ensures |r| == |rows|
  {
    seq(|rows|, k requires 0 <= k < |rows| => Refreshed(rows[k], snapshot, inputs))
  }

  /** The entries whose user has no row in the snapshot: each of them creates a row. */
  function Unmatched(snapshot: seq<ChatMember>, inputs: seq<MemberInput>): (r: seq<MemberInput>)
    ensures |r| <= |inputs|
  {
    if |inputs| == 0 then []
    else
      var last := inputs[|inputs| - 1];
      Unmatched(snapshot, inputs[..|inputs| - 1]) + (if FirstWithUser(snapshot, last.userId).None? then [last] else [])
  }

  /** The unmatched entries are exactly the entries whose user has no row in the snapshot. */
  lemma {:induction false} UnmatchedMembers(snapshot: seq<ChatMember>, inputs: seq<MemberInput>)
    ensures forall x :: x in Unmatched(snapshot, inputs) <==> x in inputs && FirstWithUser(snapshot, x.userId).None?
  {
    if |inputs| > 0 {
      var n := |inputs|;
      var last := inputs[n - 1];
      UnmatchedMembers(snapshot, inputs[..n - 1]);
      Snoc(inputs);
      assert Unmatched(snapshot, inputs) == Unmatched(snapshot, inputs[..n - 1]) + (if FirstWithUser(snapshot, last.userId).None? then [last] else []);
    }
  }

  /** One more entry after `init`: the run of updates for a user now ends at it. */
  lemma RefreshedStep(m: ChatMember, snapshot: seq<ChatMember>, init: seq<MemberInput>, x: MemberInput)
    ensures Refreshed(m, snapshot, init + [x]) ==
      if Target(snapshot, m) && m.userId == x.userId then Assigned(m, x) else Refreshed(m, snapshot, init)
  {
    var inputs := init + [x];
    assert inputs[..|inputs| - 1] == init;
  }

  /** An entry whose user has a row in the snapshot refreshes that row and nothing else. */
  lemma UpdateIdRefreshes(t: Table, snapshot: seq<ChatMember>, init: seq<MemberInput>, x: MemberInput, row: ChatMember, created: seq<ChatMember>)
    requires forall s, m :: s in snapshot && m in t.rows && s.id == m.id ==> s == m
    requires forall s :: s in snapshot ==> s.id < t.nextId
    requires FirstWithUser(snapshot, x.userId) == Some(row)
    requires forall k :: 0 <= k < |created| ==> created[k].id >= t.nextId
    ensures UpdateId(RefreshedAll(t.rows, snapshot, init) + created, row.id, x)
         == RefreshedAll(t.rows, snapshot, init + [x]) + created
  {
    var i :| 0 <= i < |snapshot| && snapshot[i] == row;
    assert row in snapshot;
    var before := RefreshedAll(t.rows, snapshot, init) + created;
    var u := UpdateId(before, row.id, x);
    var expected := RefreshedAll(t.rows, snapshot, init + [x]) + created;
    forall k | 0 <= k < |u|
      ensures u[k] == expected[k]
    {
      if k < |t.rows| {
        var m := t.rows[k];
        RefreshedStep(m, snapshot, init, x);
        if m.id == row.id {
          assert m == row;
        }
      } else {
        assert before[k] == created[k - |t.rows|];
      }
    }
  }

  /**
   * The add-or-update loop as one expression: every row is refreshed in
   * place, and after them come the rows of the unmatched entries, with
   * consecutive fresh keys.
   */
  lemma {:induction false} UpsertedIs(t: Table, snapshot: seq<ChatMember>, chatId: nat, inputs: seq<MemberInput>)
    requires forall s, m :: s in snapshot && m in t.rows && s.id == m.id ==> s == m
    requires forall s :: s in snapshot ==> s.id < t.nextId
    ensures Upserted(t, snapshot, chatId, inputs) ==
      Table(RefreshedAll(t.rows, snapshot, inputs) + NewRows(chatId, Unmatched(snapshot, inputs), t.nextId),
            t.nextId + |Unmatched(snapshot, inputs)|)
  {
    if |inputs| == 0 {
      assert RefreshedAll(t.rows, snapshot, inputs) == t.rows;
      AppendNil(t.rows);
    } else {
      var n := |inputs|;
      Snoc(inputs);
      UpsertedIs(t, snapshot, chatId, inputs[..n - 1]);
      UpsertedStep(t, snapshot, chatId, inputs[..n - 1], inputs[n - 1]);
    }
  }

  /** One more entry: an entry with a row in the snapshot refreshes it, any other creates the next row. */
  lemma UpsertedStep(t: Table, snapshot: seq<ChatMember>, chatId: nat, init: seq<MemberInput>, x: MemberInput)
    requires forall s, m :: s in snapshot && m in t.rows && s.id == m.id ==> s == m
    requires forall s :: s in snapshot ==> s.id < t.nextId
    requires Upserted(t, snapshot, chatId, init) ==
      Table(RefreshedAll(t.rows, snapshot, init) + NewRows(chatId, Unmatched(snapshot, init), t.nextId),
            t.nextId + |Unmatched(snapshot, init)|)
    ensures Upserted(t, snapshot, chatId, init + [x]) ==
      Table(RefreshedAll(t.rows, snapshot, init + [x]) + NewRows(chatId, Unmatched(snapshot, init + [x]), t.nextId),
            t.nextId + |Unmatched(snapshot, init + [x])|)
  {
    if FirstWithUser(snapshot, x.userId).Some? {
      UpsertedMatched(t, snapshot, chatId, init, x);
    } else {
      UpsertedUnmatched(t, snapshot, chatId, init, x);
    }
  }

  lemma UpsertedMatched(t: Table, snapshot: seq<ChatMember>, chatId: nat, init: seq<MemberInput>, x: MemberInput)
    requires FirstWithUser(snapshot, x.userId).Some?
    requires forall s, m :: s in snapshot && m in t.rows && s.id == m.id ==> s == m
    requires forall s :: s in snapshot ==> s.id < t.nextId
    requires Upserted(t, snapshot, chatId, init) ==
      Table(RefreshedAll(t.rows, snapshot, init) + NewRows(chatId, Unmatched(snapshot, init), t.nextId),
            t.nextId + |Unmatched(snapshot, init)|)
    ensures Upserted(t, snapshot, chatId, init + [x]) ==
      Table(RefreshedAll(t.rows, snapshot, init + [x]) + NewRows(chatId, Unmatched(snapshot, init + [x]), t.nextId),
            t.nextId + |Unmatched(snapshot, init + [x])|)
  {
    InitOfSnoc(init, x);
    var p := Upserted(t, snapshot, chatId, init);
    var row := FirstWithUser(snapshot, x.userId).value;
    assert Upserted(t, snapshot, chatId, init + [x]) == p.(rows := UpdateId(p.rows, row.id, x));
    UnmatchedMatched(snapshot, init, x);
    UpdateIdRefreshes(t, snapshot, init, x, row, NewRows(chatId, Unmatched(snapshot, init), t.nextId));
  }

  lemma UpsertedUnmatched(t: Table, snapshot: seq<ChatMember>, chatId: nat, init: seq<MemberInput>, x: MemberInput)
    requires FirstWithUser(snapshot, x.userId).None?
    requires forall s, m :: s in snapshot && m in t.rows && s.id == m.id ==> s == m
    requires forall s :: s in snapshot ==> s.id < t.nextId
    requires Upserted(t, snapshot, chatId, init) ==
      Table(RefreshedAll(t.rows, snapshot, init) + NewRows(chatId, Unmatched(snapshot, init), t.nextId),
            t.nextId + |Unmatched(snapshot, init)|)
    ensures Upserted(t, snapshot, chatId, init + [x]) ==
      Table(RefreshedAll(t.rows, snapshot, init + [x]) + NewRows(chatId, Unmatched(snapshot, init + [x]), t.nextId),
            t.nextId + |Unmatched(snapshot, init + [x])|)
  {
    InitOfSnoc(init, x);
    var p := Upserted(t, snapshot, chatId, init);
    var refreshed := RefreshedAll(t.rows, snapshot, init);
    var unmatched := Unmatched(snapshot, init);
    var created := NewRows(chatId, unmatched, t.nextId);
    var newRow := ChatMember(p.nextId, chatId, x.userId, x.userType, x.config);
    assert Upserted(t, snapshot, chatId, init + [x]) == Table(p.rows + [newRow], p.nextId + 1);
    assert p.rows == refreshed + created && p.nextId == t.nextId + |unmatched|;
    AppendAssoc(refreshed, created, [newRow]);
    NewRowsSnoc(chatId, unmatched, x, t.nextId);
    assert created + [newRow] == NewRows(chatId, unmatched + [x], t.nextId);
    RefreshedAllUnmatched(t.rows, snapshot, init, x);
    UnmatchedSnoc(snapshot, init, x);
  }

  /** An entry whose user has no row in the snapshot refreshes no row. */
  lemma RefreshedAllUnmatched(rows: seq<ChatMember>, snapshot: seq<ChatMember>, init: seq<MemberInput>, x: MemberInput)
    requires FirstWithUser(snapshot, x.userId).None?
    ensures RefreshedAll(rows, snapshot, init + [x]) == RefreshedAll(rows, snapshot, init)
  {
    forall k | 0 <= k < |rows|
      ensures RefreshedAll(rows, snapshot, init + [x])[k] == RefreshedAll(rows, snapshot, init)[k]
    {
      RefreshedStep(rows[k], snapshot, init, x);
    }
  }

  /** An entry whose user has no row in the snapshot is the next unmatched entry. */
  lemma UnmatchedSnoc(snapshot: seq<ChatMember>, init: seq<MemberInput>, x: MemberInput)
    requires FirstWithUser(snapshot, x.userId).None?
    ensures Unmatched(snapshot, init + [x]) == Unmatched(snapshot, init) + [x]
  {
    InitOfSnoc(init, x);
  }

  /** An entry whose user has a row in the snapshot is not unmatched. */
  lemma UnmatchedMatched(snapshot: seq<ChatMember>, init: seq<MemberInput>, x: MemberInput)
    requires FirstWithUser(snapshot, x.userId).Some?
    ensures Unmatched(snapshot, init + [x]) == Unmatched(snapshot, init)
  {
    InitOfSnoc(init, x);
    AppendNil(Unmatched(snapshot, init));
  }

  /** One more entry creates one more row, with the next key. */
  lemma NewRowsSnoc(chatId: nat, list: seq<MemberInput>, x: MemberInput, first: nat)
    ensures NewRows(chatId, list + [x], first)
         == NewRows(chatId, list, first) + [ChatMember(first + |list|, chatId, x.userId, x.userType, x.config)]
  {
    var a := NewRows(chatId, list + [x], first);
    var b := NewRows(chatId, list, first) + [ChatMember(first + |list|, chatId, x.userId, x.userType, x.config)];
    forall k | 0 <= k < |a|
      ensures a[k] == b[k]
    {
      if k < |list| {
        assert (list + [x])[k] == list[k];
      }
    }
  }

  /** The reconciliation `update` performs on the table for chat `chatId`. */
  function Reconciled(rows: seq<ChatMember>, chatId: nat, inputs: seq<MemberInput>, next: nat): Table {
    var snapshot := MembersOf(rows, chatId);
    Upserted(Table(Prune(rows, snapshot, inputs), next), snapshot, chatId, inputs)
  }

  /** Every row of a refreshed table comes from a row of the table, and every row is refreshed. */
  lemma RefreshedAllMembers(rows: seq<ChatMember>, snapshot: seq<ChatMember>, inputs: seq<MemberInput>)
    ensures forall r :: r in RefreshedAll(rows, snapshot, inputs) ==> exists m :: m in rows && r == Refreshed(m, snapshot, inputs)
    ensures forall m :: m in rows ==> Refreshed(m, snapshot, inputs) in RefreshedAll(rows, snapshot, inputs)
  {
    var refreshed := RefreshedAll(rows, snapshot, inputs);
    forall r | r in refreshed
      ensures exists m :: m in rows && r == Refreshed(m, snapshot, inputs)
    {
      var k :| 0 <= k < |refreshed| && refreshed[k] == r;
      assert rows[k] in rows;
    }
    forall m | m in rows
      ensures Refreshed(m, snapshot, inputs) in refreshed
    {
      var k :| 0 <= k < |rows| && rows[k] == m;
      assert refreshed[k] == Refreshed(m, snapshot, inputs);
    }
  }

  /** Created rows have distinct consecutive keys from `first`, lie in the chat, and each is for one of the entries. */
  lemma NewRowsMembers(chatId: nat, list: seq<MemberInput>, first: nat)
    ensures forall r :: r in NewRows(chatId, list, first) ==>
      (first <= r.id < first + |list| && r.chatId == chatId && exists x :: x in list && r.userId == x.userId)
    ensures forall a, b :: a in NewRows(chatId, list, first) && b in NewRows(chatId, list, first) && a.id == b.id ==> a == b
    ensures forall k :: 0 <= k < |list| ==> NewRows(chatId, list, first)[k] in NewRows(chatId, list, first)
  {
    var created := NewRows(chatId, list, first);
    forall r | r in created
      ensures first <= r.id < first + |list| && r.chatId == chatId && exists x :: x in list && r.userId == x.userId
    {
      var k :| 0 <= k < |created| && created[k] == r;
      assert list[k] in list;
    }
    forall a, b | a in created && b in created && a.id == b.id
      ensures a == b
    {
      var i :| 0 <= i < |created| && created[i] == a;
      var j :| 0 <= j < |created| && created[j] == b;
    }
  }

  /** The removal loop of `update` destroys exactly the doomed rows. */
  lemma PrunedMembers(rows: seq<ChatMember>, chatId: nat, inputs: seq<MemberInput>, next: nat)
    requires TableValid(rows, next)
    ensures forall m :: m in Prune(rows, MembersOf(rows, chatId), inputs) <==> m in rows && !Doomed(m, chatId, inputs)
  {
    MembersOfMembers(rows, chatId);
    PruneMembers(rows, MembersOf(rows, chatId), inputs, next);
  }

  /** The reconciliation as one expression: the pruned rows refreshed, then one new row per unmatched entry. */
  lemma ReconciledIs(rows: seq<ChatMember>, chatId: nat, inputs: seq<MemberInput>, next: nat)
    requires TableValid(rows, next)
    ensures var snapshot := MembersOf(rows, chatId);
      var pruned := Prune(rows, snapshot, inputs);
      var unmatched := Unmatched(snapshot, inputs);
      && (forall m :: m in pruned <==> m in rows && !Doomed(m, chatId, inputs))
      && Reconciled(rows, chatId, inputs, next)
         == Table(RefreshedAll(pruned, snapshot, inputs) + NewRows(chatId, unmatched, next), next + |unmatched|)
  {
    var snapshot := MembersOf(rows, chatId);
    var pruned := Prune(rows, snapshot, inputs);
    MembersOfMembers(rows, chatId);
    PrunedMembers(rows, chatId, inputs, next);
    UpsertedIs(Table(pruned, next), snapshot, chatId, inputs);
  }

  /** A row outside the chat is no target of the chat's entries, so refreshing leaves it as it is. */
  lemma RefreshedOutside(rows: seq<ChatMember>, chatId: nat, inputs: seq<MemberInput>, next: nat, m: ChatMember)
    requires TableValid(rows, next)
    requires m in rows && m.chatId != chatId
    ensures Refreshed(m, MembersOf(rows, chatId), inputs) == m
  {
    var snapshot := MembersOf(rows, chatId);
    var found := FirstWithUser(snapshot, m.userId);
    if found.Some? {
      var i :| 0 <= i < |snapshot| && snapshot[i] == found.value;
      MembersOfMembers(rows, chatId);
      assert found.value in snapshot;
    }
  }

  /**
   * A row survives, refreshed, exactly when it is not doomed: a doomed row's
   * key is gone, rows of other chats are untouched, and nothing outside the
   * chat appears.
   */
  lemma ReconciledSurvivors(rows: seq<ChatMember>, chatId: nat, inputs: seq<MemberInput>, next: nat)
    requires TableValid(rows, next)
    ensures var u := Reconciled(rows, chatId, inputs, next);
      var snapshot := MembersOf(rows, chatId);
      && (forall m :: m in rows && !Doomed(m, chatId, inputs) ==> Refreshed(m, snapshot, inputs) in u.rows)
      && (forall m, r :: m in rows && Doomed(m, chatId, inputs) && r in u.rows ==> r.id != m.id)
      && (forall m :: m in rows && m.chatId != chatId ==> m in u.rows)
      && (forall r :: r in u.rows && r.chatId != chatId ==> r in rows)
  {
    var snapshot := MembersOf(rows, chatId);
    var pruned := Prune(rows, snapshot, inputs);
    var unmatched := Unmatched(snapshot, inputs);
    var refreshed := RefreshedAll(pruned, snapshot, inputs);
    var created := NewRows(chatId, unmatched, next);
    var u := Reconciled(rows, chatId, inputs, next);
    ReconciledIs(rows, chatId, inputs, next);
    assert u.rows == refreshed + created;
    RefreshedAllMembers(pruned, snapshot, inputs);
    NewRowsMembers(chatId, unmatched, next);
    forall m | m in rows && !Doomed(m, chatId, inputs)
      ensures Refreshed(m, snapshot, inputs) in u.rows
    {
      assert m in pruned;
    }
    forall m, r | m in rows && Doomed(m, chatId, inputs) && r in u.rows
      ensures r.id != m.id
    {
      if r in refreshed {
        var m' :| m' in pruned && r == Refreshed(m', snapshot, inputs);
      }
    }
    forall m | m in rows && m.chatId != chatId
      ensures m in u.rows
    {
      RefreshedOutside(rows, chatId, inputs, next, m);
      assert m in pruned;
    }
    forall r | r in u.rows && r.chatId != chatId
      ensures r in rows
    {
      if r in refreshed {
        var m' :| m' in pruned && r == Refreshed(m', snapshot, inputs);
        RefreshedOutside(rows, chatId, inputs, next, m');
      }
    }
  }

  /** After the reconciliation keys are still unique and below the next free one. */
  lemma ReconciledValid(rows: seq<ChatMember>, chatId: nat, inputs: seq<MemberInput>, next: nat)
    requires TableValid(rows, next)
    ensures var u := Reconciled(rows, chatId, inputs, next);
      TableValid(u.rows, u.nextId) && next <= u.nextId
  {
    var snapshot := MembersOf(rows, chatId);
    var pruned := Prune(rows, snapshot, inputs);
    var unmatched := Unmatched(snapshot, inputs);
    var refreshed := RefreshedAll(pruned, snapshot, inputs);
    var created := NewRows(chatId, unmatched, next);
    var u := Reconciled(rows, chatId, inputs, next);
    ReconciledIs(rows, chatId, inputs, next);
    assert u.rows == refreshed + created;
    RefreshedAllMembers(pruned, snapshot, inputs);
    NewRowsMembers(chatId, unmatched, next);
    forall a, b | a in u.rows && b in u.rows && a.id == b.id
      ensures a == b
    {
      if a in refreshed && b in refreshed {
        var ma :| ma in pruned && a == Refreshed(ma, snapshot, inputs);
        var mb :| mb in pruned && b == Refreshed(mb, snapshot, inputs);
      }
    }
    forall r | r in u.rows
      ensures r.id < u.nextId
    {
      if r in refreshed {
        var m :| m in pruned && r == Refreshed(m, snapshot, inputs);
      }
    }
  }

  /** After the reconciliation every listed user has a row in the chat. */
  lemma ReconciledListed(rows: seq<ChatMember>, chatId: nat, inputs: seq<MemberInput>, next: nat)
    requires TableValid(rows, next)
    ensures var u := Reconciled(rows, chatId, inputs, next);
      forall k :: 0 <= k < |inputs| ==> exists r :: r in u.rows && r.chatId == chatId && r.userId == inputs[k].userId
  {
    var snapshot := MembersOf(rows, chatId);
    var pruned := Prune(rows, snapshot, inputs);
    var unmatched := Unmatched(snapshot, inputs);
    var refreshed := RefreshedAll(pruned, snapshot, inputs);
    var created := NewRows(chatId, unmatched, next);
    var u := Reconciled(rows, chatId, inputs, next);
    ReconciledIs(rows, chatId, inputs, next);
    assert u.rows == refreshed + created;
    MembersOfMembers(rows, chatId);
    UnmatchedMembers(snapshot, inputs);
    forall k | 0 <= k < |inputs|
      ensures exists r :: r in u.rows && r.chatId == chatId && r.userId == inputs[k].userId
    {
      var x := inputs[k];
      match FirstWithUser(snapshot, x.userId)
      case Some(s) =>
        var i :| 0 <= i < |snapshot| && snapshot[i] == s;
        assert s in snapshot;
        assert Listed(inputs, s.userId);
        assert s in pruned;
        RefreshedAllMembers(pruned, snapshot, inputs);
        assert Refreshed(s, snapshot, inputs) in u.rows;
      case None =>
        assert x in unmatched;
        var j :| 0 <= j < |unmatched| && unmatched[j] == x;
        assert created[j] in u.rows;
    }
  }

  /** Every row with a fresh key is in the chat, for a listed user that had no row there. */
  lemma ReconciledFresh(rows: seq<ChatMember>, chatId: nat, inputs: seq<MemberInput>, next: nat)
    requires TableValid(rows, next)
    ensures var u := Reconciled(rows, chatId, inputs, next);
      forall r :: r in u.rows && r.id >= next ==>
        r.chatId == chatId && Listed(inputs, r.userId) && forall m :: m in rows && m.chatId == chatId ==> m.userId != r.userId
  {
    var snapshot := MembersOf(rows, chatId);
    var pruned := Prune(rows, snapshot, inputs);
    var unmatched := Unmatched(snapshot, inputs);
    var refreshed := RefreshedAll(pruned, snapshot, inputs);
    var created := NewRows(chatId, unmatched, next);
    var u := Reconciled(rows, chatId, inputs, next);
    ReconciledIs(rows, chatId, inputs, next);
    assert u.rows == refreshed + created;
    RefreshedAllMembers(pruned, snapshot, inputs);
    NewRowsMembers(chatId, unmatched, next);
    UnmatchedMembers(snapshot, inputs);
    MembersOfMembers(rows, chatId);
    forall r | r in u.rows && r.id >= next
      ensures r.chatId == chatId && Listed(inputs, r.userId) && forall m :: m in rows && m.chatId == chatId ==> m.userId != r.userId
    {
      assert r in created;
      var x :| x in unmatched && r.userId == x.userId;
      var j :| 0 <= j < |inputs| && inputs[j] == x;
      forall m | m in rows && m.chatId == chatId
        ensures m.userId != r.userId
      {
        assert m in snapshot;
        var i :| 0 <= i < |snapshot| && snapshot[i] == m;
      }
    }
  }

  /**
   * After the reconciliation the table is valid, every listed user has a row
   * in the chat, and every row with a fresh key is in the chat for a listed
   * user that had no row there.
   */
  lemma ReconciledIncoming(rows: seq<ChatMember>, chatId: nat, inputs: seq<MemberInput>, next: nat)
    requires TableValid(rows, next)
    ensures var u := Reconciled(rows, chatId, inputs, next);
      && TableValid(u.rows, u.nextId) && next <= u.nextId
      && (forall k :: 0 <= k < |inputs| ==> exists r :: r in u.rows && r.chatId == chatId && r.userId == inputs[k].userId)
      && (forall r :: r in u.rows && r.id >= next ==>
            r.chatId == chatId && Listed(inputs, r.userId) && forall m :: m in rows && m.chatId == chatId ==> m.userId != r.userId)
  {
    ReconciledValid(rows, chatId, inputs, next);
    ReconciledListed(rows, chatId, inputs, next);
    ReconciledFresh(rows, chatId, inputs, next);
  }

  /** `update` never destroys a User member of the chat. */
  lemma ReconciledKeepsUsers(rows: seq<ChatMember>, chatId: nat, inputs: seq<MemberInput>, next: nat, m: ChatMember)
    requires TableValid(rows, next)
    requires m in rows && m.userType == UserType
    ensures exists r :: r in Reconciled(rows, chatId, inputs, next).rows && r.id == m.id && r.userId == m.userId
  {
    ReconciledSurvivors(rows, chatId, inputs, next);
    assert Refreshed(m, MembersOf(rows, chatId), inputs) in Reconciled(rows, chatId, inputs, next).rows;
  }
}
