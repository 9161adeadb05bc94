/**
 * The chats IPC handler over the `chats` and `chat_members` tables.  The
 * database is represented by the two tables it holds; generated UUIDs are
 * represented by counters, and the user settings a request reads
 * (speech-to-text engine, profile, native language) are a parameter.
 */
module Chats {
  import opened Wrappers
  import opened ChatMembers

  datatype ChatConfig = ChatConfig(sttEngine: string, settings: Config)

  /** One row of the `chats` table. */
  datatype Chat = Chat(id: nat, name: string, config: ChatConfig)

  /** The chat fields of a create or update request; `config` is absent when the request omits it. */
  datatype ChatData = ChatData(name: string, config: Option<ChatConfig>)

  /** The errors the handler throws. */
  datatype ChatError =
    | MembersRequired  // `models.chats.membersRequired`
    | NotFound         // `models.chats.notFound`
    | TypeError        // a property read or write on `undefined`

  /** The user settings `create` reads. */
  datatype UserSettings = UserSettings(sttEngine: string, profileId: string, nativeLanguage: string)

  /** A condition of the query's `where` object. */
  datatype Condition =
    | Like(pattern: string)   // `{ [Op.like]: pattern }`
    | InIds(ids: set<nat>)    // `{ [Op.in]: ids }`
    | Equals(value: string)   // a condition the caller supplied

  datatype OrderTerm = OrderTerm(column: string, descending: bool)

  /** The options of `findAll`; a key the caller leaves out is `""` or `None`. */
  datatype FindOptions = FindOptions(
    query: string,
    where: Option<map<string, Condition>>,
    chatAgentId: string,
    order: Option<seq<OrderTerm>>,
    limit: Option<nat>,
    offset: Option<nat>)

  /** What `Chat.findAll` is called with. */
  datatype ChatQuery = ChatQuery(where: map<string, Condition>, order: seq<OrderTerm>, limit: Option<nat>, offset: Option<nat>)

  const DefaultOrder := [OrderTerm("updatedAt", true)]

  /** The chats an agent is a member of: `ChatMember.findAll({ where: { userId, userType: "Agent" } })` mapped to `chatId`. */
  function AgentChatIds(rows: seq<ChatMember>, agentId: string): set<nat> {
    set m | m in rows && m.userId == agentId && m.userType == AgentType :: m.chatId
  }

  /** A chat is among an agent's chats exactly when the agent is one of that chat's members. */
  lemma AgentChatIdsMembers(rows: seq<ChatMember>, agentId: string, chatId: nat)
    ensures chatId in AgentChatIds(rows, agentId) <==>
            exists m :: m in MembersOf(rows, chatId) && m.userId == agentId && m.userType == AgentType
  {
    MembersOfMembers(rows, chatId);
    if chatId in AgentChatIds(rows, agentId) {
      var m :| m in rows && m.userId == agentId && m.userType == AgentType && m.chatId == chatId;
      assert m in MembersOf(rows, chatId);
    }
  }

  /** A created chat's configuration: without a speech-to-text engine it takes the user's. */
  function WithSttEngine(config: ChatConfig, sttEngine: string): ChatConfig {
    if config.sttEngine == "" then config.(sttEngine := sttEngine) else config
  }

  /** `chat.update(chatData)`: the name is replaced, and so is the configuration when the request carries one. */
  function Edited(chat: Chat, data: ChatData): Chat {
    chat.(name := data.name, config := data.config.GetOr(chat.config))
  }

  class ChatsHandler {
    var chats: map<nat, Chat>
    var members: seq<ChatMember>
    var nextChatId: nat
    var nextMemberId: nat

    ghost predicate Valid()
      reads this
    {
      && (forall id :: id in chats ==> chats[id].id == id && id < nextChatId)
      && TableValid(members, nextMemberId)
    }

    constructor ()
      ensures Valid()
      ensures chats == map[] && members == [] && nextChatId == 0 && nextMemberId == 0
    {
      chats := map[];
      members := [];
      nextChatId := 0;
      nextMemberId := 0;
    }

    /**
     * `findAll`: builds the query.  A search string matches names containing
     * it, an agent restricts the ids to the chats it is a member of, the
     * caller's other conditions and options are kept, and the order defaults
     * to the most recently updated first.  Without options, deleting
     * `options.query` throws.
     */
    method FindAllQuery(options: Option<FindOptions>) returns (r: Result<ChatQuery, ChatError>)
      ensures options.None? <==> r == Err(TypeError)
      ensures r.Ok? <==> options.Some?
      ensures r.Ok? ==>
        var o := options.value;
        var given := o.where.GetOr(map[]);
        && (o.query != "" ==> "name" in r.value.where && r.value.where["name"] == Like("%" + o.query + "%"))
        && (o.chatAgentId != "" ==> "id" in r.value.where && r.value.where["id"] == InIds(AgentChatIds(members, o.chatAgentId)))
        && (forall key :: key in r.value.where && !(key == "name" && o.query != "") && !(key == "id" && o.chatAgentId != "") ==>
              key in given && r.value.where[key] == given[key])
        && (forall key :: key in given ==> key in r.value.where)
        && r.value.order == o.order.GetOr(DefaultOrder)
        && r.value.limit == o.limit && r.value.offset == o.offset
    {
      if options.None? {
        return Err(TypeError);
      }
      var o := options.value;
      var where := if o.where.Some? then o.where.value else map[];
      if o.query != "" {
        where := where["name" := Like("%" + o.query + "%")];
      }
      if o.chatAgentId != "" {
        var chatIds := AgentChatIds(members, o.chatAgentId);
        where := where["id" := InIds(chatIds)];
      }
      // the caller's remaining options override the default order
      var order := if o.order.Some? then o.order.value else DefaultOrder;
      return Ok(ChatQuery(where, order, o.limit, o.offset));
    }

    /**
     * `create`: a chat with at least one member.  The chat takes the user's
     * speech-to-text engine when it names none, and one member row is created
     * per entry, with the default User member added when no entry is a User.
     */
    method Create(data: ChatData, inputs: seq<MemberInput>, settings: UserSettings) returns (r: Result<Chat, ChatError>)
      requires Valid()
      modifies this
      ensures Valid()
      ensures inputs == [] ==> r == Err(MembersRequired) && unchanged(this)
      ensures inputs != [] && data.config.None? ==> r == Err(TypeError) && unchanged(this)
      ensures inputs != [] && data.config.Some? ==>
        var list := WithDefaultUser(inputs, settings.profileId, settings.nativeLanguage);
        && r == Ok(Chat(old(nextChatId), data.name, WithSttEngine(data.config.value, settings.sttEngine)))
        && chats == old(chats)[old(nextChatId) := r.value] && nextChatId == old(nextChatId) + 1
        && members == old(members) + NewRows(old(nextChatId), list, old(nextMemberId))
        && nextMemberId == old(nextMemberId) + |list|
    {
      if |inputs| == 0 {
        return Err(MembersRequired);
      }
      // `chatData.config.sttEngine = ...` throws without a configuration
      if data.config.None? {
        return Err(TypeError);
      }
      var config := data.config.value;
      if config.sttEngine == "" {
        config := config.(sttEngine := settings.sttEngine);
      }
      var chat := Chat(nextChatId, data.name, config);
      chats := chats[chat.id := chat];
      nextChatId := nextChatId + 1;
      var list := inputs;
      if IndexOfUserType(list) < 0 {
        list := list + [DefaultUser(settings.profileId, settings.nativeLanguage)];
      }
      AddMembers(chat.id, list);
      return Ok(chat);
    }

    /**
     * `update`: the chat's fields are edited and its members reconciled with
     * the request's list (see `Reconciled`).
     */
    method Update(id: nat, data: ChatData, inputs: seq<MemberInput>) returns (r: Result<Chat, ChatError>)
      requires Valid()
      modifies this
      ensures Valid()
      ensures inputs == [] ==> r == Err(MembersRequired) && unchanged(this)
      ensures inputs != [] && id !in old(chats) ==> r == Err(NotFound) && unchanged(this)
      ensures inputs != [] && id in old(chats) ==>
        var u := Reconciled(old(members), id, inputs, old(nextMemberId));
        && r == Ok(Edited(old(chats)[id], data))
        && chats == old(chats)[id := r.value] && nextChatId == old(nextChatId)
        && members == u.rows && nextMemberId == u.nextId
    {
      if |inputs| == 0 {
        return Err(MembersRequired);
      }
      if id !in chats {
        return Err(NotFound);
      }
      ReconciledIncoming(members, id, inputs, nextMemberId);
      var chat := chats[id].(name := data.name, config := if data.config.Some? then data.config.value else chats[id].config);
      chats := chats[id := chat];
      var snapshot := MembersOf(members, id);
      RemoveUnlisted(snapshot, inputs);
      UpsertMembers(id, snapshot, inputs);
      return Ok(chat);
    }

    /** The loop of `create`: one row per entry, in order, in chat `chatId`. */
    method AddMembers(chatId: nat, list: seq<MemberInput>)
      requires TableValid(members, nextMemberId)
      modifies this
      ensures TableValid(members, nextMemberId)
      ensures members == old(members) + NewRows(chatId, list, old(nextMemberId))
      ensures nextMemberId == old(nextMemberId) + |list|
      ensures chats == old(chats) && nextChatId == old(nextChatId)
    {
      var i := 0;
      while i < |list|
        invariant 0 <= i <= |list|
        invariant members == old(members) + NewRows(chatId, list[..i], old(nextMemberId))
        invariant nextMemberId == old(nextMemberId) + i
        invariant TableValid(members, nextMemberId)
        invariant chats == old(chats) && nextChatId == old(nextChatId)
      {
        var member := list[i];
        var row := ChatMember(nextMemberId, chatId, member.userId, member.userType, member.config);
        assert NewRows(chatId, list[..i + 1], old(nextMemberId)) == NewRows(chatId, list[..i], old(nextMemberId)) + [row];
        members := members + [row];
        nextMemberId := nextMemberId + 1;
        i := i + 1;
      }
      assert list[..i] == list;
    }

    /** The removal loop of `update` over the chat's members. */
    method RemoveUnlisted(snapshot: seq<ChatMember>, inputs: seq<MemberInput>)
      modifies this
      ensures members == Prune(old(members), snapshot, inputs)
      ensures chats == old(chats) && nextChatId == old(nextChatId) && nextMemberId == old(nextMemberId)
    {
      var i := 0;
      while i < |snapshot|
        invariant 0 <= i <= |snapshot|
        invariant members == Prune(old(members), snapshot[..i], inputs)
        invariant chats == old(chats) && nextChatId == old(nextChatId) && nextMemberId == old(nextMemberId)
      {
        var member := snapshot[i];
        assert snapshot[..i + 1][..i] == snapshot[..i];
        if member.userType != UserType && IndexOfUserId(inputs, member.userId) < 0 {
          members := RemoveId(members, member.id);
        }
        i := i + 1;
      }
      assert snapshot[..i] == snapshot;
    }

    /** The add-or-update loop of `update` over the request's entries. */
    method UpsertMembers(chatId: nat, snapshot: seq<ChatMember>, inputs: seq<MemberInput>)
      modifies this
      ensures Table(members, nextMemberId) == Upserted(Table(old(members), old(nextMemberId)), snapshot, chatId, inputs)
      ensures chats == old(chats) && nextChatId == old(nextChatId)
    {
      var j := 0;
      while j < |inputs|
        invariant 0 <= j <= |inputs|
        invariant Table(members, nextMemberId) == Upserted(Table(old(members), old(nextMemberId)), snapshot, chatId, inputs[..j])
        invariant chats == old(chats) && nextChatId == old(nextChatId)
      {
        var member := inputs[j];
        assert inputs[..j + 1][..j] == inputs[..j];
        var row := FirstWithUser(snapshot, member.userId);
        if row.Some? {
          members := UpdateId(members, row.value.id, member);
        } else {
          members := members + [ChatMember(nextMemberId, chatId, member.userId, member.userType, member.config)];
          nextMemberId := nextMemberId + 1;
        }
        j := j + 1;
      }
      assert inputs[..j] == inputs;
    }

    /** `destroy`: the chat row is deleted; an unknown id is an error. */
    method Destroy(id: nat) returns (r: Result<Chat, ChatError>)
      requires Valid()
      modifies this
      ensures Valid()
      ensures id !in old(chats) ==> r == Err(NotFound) && unchanged(this)
      ensures id in old(chats) ==>
        && r == Ok(old(chats)[id])
        && chats == old(chats) - {id}
        && members == old(members) && nextChatId == old(nextChatId) && nextMemberId == old(nextMemberId)
    {
      if id !in chats {
        return Err(NotFound);
      }
      var chat := chats[id];
      chats := chats - {id};
      return Ok(chat);
    }
  }
}
