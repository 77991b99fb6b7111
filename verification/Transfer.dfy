/**
 * Portable export and import of the product tables: which records an import keeps, what it does to
 * the tables under each duplicate policy, and why an exported database comes back unchanged.
 */
module Transfer {
  import opened Base
  import opened Text
  import opened Ndjson

  type Id = nat

  const I64_MAX := 0x7fff_ffff_ffff_ffff
  const U64_SPAN := 0x1_0000_0000_0000_0000

  // Payload columns that no rule looks at are kept together as `fields`.
  datatype Character = Character(avatar: Option<Id>, fields: string)
  datatype Chat = Chat(character: Id, fields: string)
  datatype Message = Message(chat: Id, role: string, content: string, sequence: int, created: string)

  /** A message as exported: the sequence is unsigned on the wire. */
  datatype WireMessage = WireMessage(chat: Id, role: string, content: string, sequence: nat, created: string)

  datatype Rec<+V> = Rec(id: Id, row: V)

  datatype Tables = Tables(
    characters: map<Id, Character>,
    chats: map<Id, Chat>,
    messages: map<Id, Message>,
    lorebooks: map<Id, string>,
    presets: map<Id, string>)

  /** The parsed sections of a container. */
  datatype Incoming = Incoming(
    characters: seq<Rec<Character>>,
    chats: seq<Rec<Chat>>,
    messages: seq<Rec<WireMessage>>,
    lorebooks: seq<Rec<string>>,
    presets: seq<Rec<string>>)

  datatype Policy = Reject | Replace | Remap

  datatype ImportError =
    | BadContainer
    | BadSection(error: NdjsonError)
    | DuplicateId
    | InvalidRole(message: Id)
    | SequenceOutOfRange(message: Id)

  const EMPTY := Tables(map[], map[], map[], map[], map[])

  predicate IsRole(role: string) {
    role == "system" || role == "user" || role == "assistant" || role == "tool"
  }

  /** Foreign keys of the product tables. */
  predicate Consistent(t: Tables) {
    && (forall c :: c in t.chats ==> t.chats[c].character in t.characters)
    && (forall m :: m in t.messages ==> t.messages[m].chat in t.chats)
  }

  // ---------------------------------------------------------------- sections as lists of records

  predicate Distinct<V>(recs: seq<Rec<V>>) {
    forall i, j :: 0 <= i < j < |recs| ==> recs[i].id != recs[j].id
  }

  function Ids<V(==)>(recs: seq<Rec<V>>): set<Id> {
    set r | r in recs :: r.id
  }

  /** The table that holds exactly the listed records. */
  function TableOf<V>(recs: seq<Rec<V>>): map<Id, V> {
    if recs == [] then map[] else TableOf(recs[..|recs| - 1])[recs[|recs| - 1].id := recs[|recs| - 1].row]
  }

  lemma {:induction false} TableOfMeans<V>(recs: seq<Rec<V>>)
    requires Distinct(recs)
    ensures TableOf(recs).Keys == Ids(recs)
    ensures forall r :: r in recs ==> r.id in TableOf(recs) && TableOf(recs)[r.id] == r.row
    ensures |TableOf(recs)| == |recs|
  {
    if recs != [] {
      var init, last := recs[..|recs| - 1], recs[|recs| - 1];
      TableOfMeans(init);
      assert forall r :: r in recs <==> r in init || r == last;
      assert last.id !in Ids(init);
    }
  }

  // ---------------------------------------------------------------- what an import keeps

  /** The chats whose character is among `characters`. */
  function ChatsOf(chats: seq<Rec<Chat>>, characters: set<Id>): seq<Rec<Chat>> {
    if chats == [] then []
    else
      var last := chats[|chats| - 1];
      ChatsOf(chats[..|chats| - 1], characters) + if last.row.character in characters then [last] else []
  }

  /** The messages whose chat is among `chats`. */
  function MessagesOf(messages: seq<Rec<WireMessage>>, chats: set<Id>): seq<Rec<WireMessage>> {
    if messages == [] then []
    else
      var last := messages[|messages| - 1];
      MessagesOf(messages[..|messages| - 1], chats) + if last.row.chat in chats then [last] else []
  }

  lemma {:induction false} ChatsOfMeans(chats: seq<Rec<Chat>>, characters: set<Id>)
    ensures forall r :: r in ChatsOf(chats, characters) <==> r in chats && r.row.character in characters
    ensures |ChatsOf(chats, characters)| <= |chats|
    ensures (forall r :: r in chats ==> r.row.character in characters) ==> ChatsOf(chats, characters) == chats
  {
    if chats != [] {
      var init, last := chats[..|chats| - 1], chats[|chats| - 1];
      ChatsOfMeans(init, characters);
      assert chats == init + [last];
    }
  }

  lemma {:induction false} ChatsOfDistinct(chats: seq<Rec<Chat>>, characters: set<Id>)
    requires Distinct(chats)
    ensures Distinct(ChatsOf(chats, characters))
  {
    if chats != [] {
      var init, last := chats[..|chats| - 1], chats[|chats| - 1];
      ChatsOfDistinct(init, characters);
      ChatsOfMeans(init, characters);
      var kept := ChatsOf(init, characters);
      forall i | 0 <= i < |kept| ensures kept[i].id != last.id {
        assert kept[i] in kept;
        assert kept[i] in init;
      }
    }
  }

  lemma {:induction false} MessagesOfMeans(messages: seq<Rec<WireMessage>>, chats: set<Id>)
    ensures forall r :: r in MessagesOf(messages, chats) <==> r in messages && r.row.chat in chats
    ensures |MessagesOf(messages, chats)| <= |messages|
    ensures (forall r :: r in messages ==> r.row.chat in chats) ==> MessagesOf(messages, chats) == messages
  {
    if messages != [] {
      var init, last := messages[..|messages| - 1], messages[|messages| - 1];
      MessagesOfMeans(init, chats);
      assert messages == init + [last];
    }
  }

  lemma {:induction false} MessagesOfDistinct(messages: seq<Rec<WireMessage>>, chats: set<Id>)
    requires Distinct(messages)
    ensures Distinct(MessagesOf(messages, chats))
  {
    if messages != [] {
      var init, last := messages[..|messages| - 1], messages[|messages| - 1];
      MessagesOfDistinct(init, chats);
      MessagesOfMeans(init, chats);
      var kept := MessagesOf(init, chats);
      forall i | 0 <= i < |kept| ensures kept[i].id != last.id {
        assert kept[i] in kept;
        assert kept[i] in init;
      }
    }
  }

  function KeptChats(x: Incoming): seq<Rec<Chat>> {
    ChatsOf(x.chats, Ids(x.characters))
  }

  function KeptMessages(x: Incoming): seq<Rec<WireMessage>> {
    MessagesOf(x.messages, Ids(KeptChats(x)))
  }

  /** A choice of chats and messages whose references stay within it. */
  predicate Closed(x: Incoming, chats: set<Rec<Chat>>, messages: set<Rec<WireMessage>>) {
    && (forall c :: c in chats ==> c in x.chats && c.row.character in Ids(x.characters))
    && (forall m :: m in messages ==> m in x.messages && exists c :: c in chats && c.id == m.row.chat)
  }

  function Elements<T(==)>(xs: seq<T>): set<T> {
    set x | x in xs
  }

  /** An import keeps the largest set of records whose references can all be resolved. */
  lemma KeptIsLargestClosed(x: Incoming)
    ensures Closed(x, Elements(KeptChats(x)), Elements(KeptMessages(x)))
    ensures forall chats, messages :: Closed(x, chats, messages) ==>
              chats <= Elements(KeptChats(x)) && messages <= Elements(KeptMessages(x))
  {
    ChatsOfMeans(x.chats, Ids(x.characters));
    MessagesOfMeans(x.messages, Ids(KeptChats(x)));
    hide ChatsOf, MessagesOf;
    forall m | m in KeptMessages(x) ensures exists c :: c in Elements(KeptChats(x)) && c.id == m.row.chat {
      var c :| c in KeptChats(x) && c.id == m.row.chat;
      assert c in Elements(KeptChats(x));
    }
    forall chats, messages | Closed(x, chats, messages)
      ensures chats <= Elements(KeptChats(x)) && messages <= Elements(KeptMessages(x))
    {
      forall m | m in messages ensures m in KeptMessages(x) {
        var c :| c in chats && c.id == m.row.chat;
        assert c in KeptChats(x);
      }
    }
  }

  // ---------------------------------------------------------------- reject and replace

  function Merged<V>(prior: map<Id, V>, incoming: map<Id, V>, policy: Policy): map<Id, V> {
    if policy.Reject? then incoming + prior else prior + incoming
  }

  function FromWire(m: WireMessage): Message {
    Message(m.chat, m.role, m.content, m.sequence, m.created)
  }

  function ToRows(recs: seq<Rec<WireMessage>>): (rows: seq<Rec<Message>>)
    ensures |rows| == |recs| && forall i :: 0 <= i < |recs| ==> rows[i] == Rec(recs[i].id, FromWire(recs[i].row))
  {
    seq(|recs|, i requires 0 <= i < |recs| => Rec(recs[i].id, FromWire(recs[i].row)))
  }

  predicate AllDistinct(x: Incoming) {
    Distinct(x.characters) && Distinct(x.chats) && Distinct(x.messages) && Distinct(x.lorebooks) && Distinct(x.presets)
  }

  /** The tables after an import under `Reject` or `Replace`. */
  function Imported(t: Tables, x: Incoming, policy: Policy): Tables {
    Tables(
      Merged(t.characters, TableOf(x.characters), policy),
      Merged(t.chats, TableOf(KeptChats(x)), policy),
      Merged(t.messages, TableOf(ToRows(KeptMessages(x))), policy),
      Merged(t.lorebooks, TableOf(x.lorebooks), policy),
      Merged(t.presets, TableOf(x.presets), policy))
  }

  /** Kept chats and messages refer to records of the incoming set. */
  lemma KeptRefers(x: Incoming)
    ensures forall r :: r in KeptChats(x) ==> r.row.character in Ids(x.characters)
    ensures forall r :: r in KeptMessages(x) ==> r.row.chat in Ids(KeptChats(x))
  {
    ChatsOfMeans(x.chats, Ids(x.characters));
    MessagesOfMeans(x.messages, Ids(KeptChats(x)));
  }

  lemma KeptDistinct(x: Incoming)
    requires AllDistinct(x)
    ensures Distinct(KeptChats(x)) && Distinct(KeptMessages(x)) && Distinct(ToRows(KeptMessages(x)))
  {
    ChatsOfDistinct(x.chats, Ids(x.characters));
    MessagesOfDistinct(x.messages, Ids(KeptChats(x)));
  }

  lemma RowsRefer(recs: seq<Rec<WireMessage>>, chats: set<Id>)
    requires forall r :: r in recs ==> r.row.chat in chats
    ensures forall r :: r in ToRows(recs) ==> r.row.chat in chats
  {
    forall r | r in ToRows(recs) ensures r.row.chat in chats {
      var i :| 0 <= i < |recs| && ToRows(recs)[i] == r;
      assert recs[i] in recs;
    }
  }

  lemma ChatTableRefers(recs: seq<Rec<Chat>>, characters: set<Id>)
    requires Distinct(recs) && forall r :: r in recs ==> r.row.character in characters
    ensures forall c :: c in TableOf(recs) ==> TableOf(recs)[c].character in characters
  {
    TableOfMeans(recs);
  }

  lemma MessageTableRefers(recs: seq<Rec<Message>>, chats: set<Id>)
    requires Distinct(recs) && forall r :: r in recs ==> r.row.chat in chats
    ensures forall m :: m in TableOf(recs) ==> TableOf(recs)[m].chat in chats
  {
    TableOfMeans(recs);
  }

  /** Merging a consistent database with what an import keeps gives a consistent one, under either policy. */
  lemma ImportKeepsForeignKeys(t: Tables, x: Incoming, policy: Policy)
    requires Consistent(t) && AllDistinct(x)
    ensures Consistent(Imported(t, x, policy))
  {
    hide TableOf, KeptChats, KeptMessages, ToRows, Merged, Ids, Distinct;
    KeptRefers(x);
    KeptDistinct(x);
    TableOfMeans(x.characters);
    TableOfMeans(KeptChats(x));
    ChatTableRefers(KeptChats(x), Ids(x.characters));
    RowsRefer(KeptMessages(x), Ids(KeptChats(x)));
    MessageTableRefers(ToRows(KeptMessages(x)), Ids(KeptChats(x)));
    MergedChatsRefer(t.characters, TableOf(x.characters), t.chats, TableOf(KeptChats(x)), policy);
    MergedMessagesRefer(t.chats, TableOf(KeptChats(x)), t.messages, TableOf(ToRows(KeptMessages(x))), policy);
  }

  lemma MergedChatsRefer(c0: map<Id, Character>, c1: map<Id, Character>, h0: map<Id, Chat>, h1: map<Id, Chat>, policy: Policy)
    requires forall h :: h in h0 ==> h0[h].character in c0
    requires forall h :: h in h1 ==> h1[h].character in c1
    ensures forall h :: h in Merged(h0, h1, policy) ==> Merged(h0, h1, policy)[h].character in Merged(c0, c1, policy)
  {
  }

  lemma MergedMessagesRefer(h0: map<Id, Chat>, h1: map<Id, Chat>, m0: map<Id, Message>, m1: map<Id, Message>, policy: Policy)
    requires forall m :: m in m0 ==> m0[m].chat in h0
    requires forall m :: m in m1 ==> m1[m].chat in h1
    ensures forall m :: m in Merged(m0, m1, policy) ==> Merged(m0, m1, policy)[m].chat in Merged(h0, h1, policy)
  {
  }

  /** Importing the same container again changes nothing, and adds nothing. */
  lemma ImportIsIdempotent(t: Tables, x: Incoming, policy: Policy)
    ensures Imported(Imported(t, x, policy), x, policy) == Imported(t, x, policy)
    ensures Imported(Imported(t, x, policy), x, Reject) == Imported(t, x, policy)
  {
    var u := Imported(t, x, policy);
    MergeTwice(t.characters, TableOf(x.characters), policy);
    MergeTwice(t.chats, TableOf(KeptChats(x)), policy);
    MergeTwice(t.messages, TableOf(ToRows(KeptMessages(x))), policy);
    MergeTwice(t.lorebooks, TableOf(x.lorebooks), policy);
    MergeTwice(t.presets, TableOf(x.presets), policy);
  }

  lemma MergeTwice<V>(prior: map<Id, V>, incoming: map<Id, V>, policy: Policy)
    ensures Merged(Merged(prior, incoming, policy), incoming, policy) == Merged(prior, incoming, policy)
    ensures Merged(Merged(prior, incoming, policy), incoming, Reject) == Merged(prior, incoming, policy)
  {
  }

  /** Which policy wins where: reject keeps every old row, replace takes every incoming one, neither touches the rest. */
  lemma PoliciesDiffer<V>(prior: map<Id, V>, recs: seq<Rec<V>>, policy: Policy, id: Id)
    requires Distinct(recs)
    ensures var t := Merged(prior, TableOf(recs), policy);
      && (id in t <==> id in prior || id in Ids(recs))
      && (id in prior && (policy.Reject? || id !in Ids(recs)) ==> t[id] == prior[id])
      && (forall r :: r in recs && r.id == id && (!policy.Reject? || id !in prior) ==> t[id] == r.row)
  {
    TableOfMeans(recs);
  }

  // ---------------------------------------------------------------- remap

  /** Which fresh id each record gets, in order. */
  function Renaming<V>(recs: seq<Rec<V>>, ids: seq<Id>): map<Id, Id>
    requires |recs| <= |ids|
  {
    if recs == [] then map[] else Renaming(recs[..|recs| - 1], ids)[recs[|recs| - 1].id := ids[|recs| - 1]]
  }

  lemma {:induction false} RenamingMeans<V>(recs: seq<Rec<V>>, ids: seq<Id>)
    requires |recs| <= |ids| && Distinct(recs)
    ensures Renaming(recs, ids).Keys == Ids(recs)
    ensures forall i :: 0 <= i < |recs| ==> recs[i].id in Renaming(recs, ids) && Renaming(recs, ids)[recs[i].id] == ids[i]
  {
    if recs != [] {
      var init, last := recs[..|recs| - 1], recs[|recs| - 1];
      RenamingMeans(init, ids);
      assert forall r :: r in recs <==> r in init || r == last;
      assert last.id !in Ids(init);
    }
  }

  /** The records under their fresh ids. */
  function Rekeyed<V>(recs: seq<Rec<V>>, ids: seq<Id>): (out: seq<Rec<V>>)
    requires |recs| <= |ids|
    ensures |out| == |recs| && forall i :: 0 <= i < |recs| ==> out[i] == Rec(ids[i], recs[i].row)
  {
    seq(|recs|, i requires 0 <= i < |recs| => Rec(ids[i], recs[i].row))
  }

  /** Kept chats pointing at the renamed characters. */
  function ChatsFor(recs: seq<Rec<Chat>>, to: map<Id, Id>): (out: seq<Rec<Chat>>)
    requires forall r :: r in recs ==> r.row.character in to
    ensures |out| == |recs|
    ensures forall i :: 0 <= i < |recs| ==> out[i] == Rec(recs[i].id, recs[i].row.(character := to[recs[i].row.character]))
  {
    seq(|recs|, i requires 0 <= i < |recs| => Rec(recs[i].id, recs[i].row.(character := to[recs[i].row.character])))
  }

  function MessagesFor(recs: seq<Rec<Message>>, to: map<Id, Id>): (out: seq<Rec<Message>>)
    requires forall r :: r in recs ==> r.row.chat in to
    ensures |out| == |recs|
    ensures forall i :: 0 <= i < |recs| ==> out[i] == Rec(recs[i].id, recs[i].row.(chat := to[recs[i].row.chat]))
  {
    seq(|recs|, i requires 0 <= i < |recs| => Rec(recs[i].id, recs[i].row.(chat := to[recs[i].row.chat])))
  }

  /** Fresh ids, one block per section. */
  datatype Fresh = Fresh(characters: seq<Id>, chats: seq<Id>, messages: seq<Id>, lorebooks: seq<Id>, presets: seq<Id>)

  predicate NoRepeats(ids: seq<Id>) {
    forall i, j :: 0 <= i < j < |ids| ==> ids[i] != ids[j]
  }

  predicate Unused<V>(ids: seq<Id>, table: map<Id, V>) {
    NoRepeats(ids) && forall i :: i in ids ==> i !in table
  }

  /** One fresh id per record, unused in the table it goes to. */
  predicate FreshFor(f: Fresh, t: Tables, x: Incoming) {
    && |f.characters| == |x.characters| && Unused(f.characters, t.characters)
    && |f.chats| == |KeptChats(x)| && Unused(f.chats, t.chats)
    && |f.messages| == |KeptMessages(x)| && Unused(f.messages, t.messages)
    && |f.lorebooks| == |x.lorebooks| && Unused(f.lorebooks, t.lorebooks)
    && |f.presets| == |x.presets| && Unused(f.presets, t.presets)
  }

  /** `prior` with the records added under fresh ids. */
  function Copied<V>(prior: map<Id, V>, recs: seq<Rec<V>>, ids: seq<Id>): map<Id, V>
    requires |recs| == |ids|
  {
    prior + TableOf(Rekeyed(recs, ids))
  }

  lemma RemapReferences(x: Incoming, f: Fresh)
    requires AllDistinct(x) && |f.characters| == |x.characters| && |f.chats| == |KeptChats(x)|
    ensures forall r :: r in KeptChats(x) ==> r.row.character in Renaming(x.characters, f.characters)
    ensures forall r :: r in ToRows(KeptMessages(x)) ==> r.row.chat in Renaming(KeptChats(x), f.chats)
  {
    hide Renaming, KeptChats, KeptMessages, ToRows;
    KeptRefers(x);
    KeptDistinct(x);
    RenamingMeans(x.characters, f.characters);
    RenamingMeans(KeptChats(x), f.chats);
    RowsRefer(KeptMessages(x), Ids(KeptChats(x)));
  }

  /** The tables after an import under `Remap`. */
  ghost function Remapped(t: Tables, x: Incoming, f: Fresh): Tables
    requires AllDistinct(x) && FreshFor(f, t, x)
  {
    RemapReferences(x, f);
    Tables(
      Copied(t.characters, x.characters, f.characters),
      Copied(t.chats, ChatsFor(KeptChats(x), Renaming(x.characters, f.characters)), f.chats),
      Copied(t.messages, MessagesFor(ToRows(KeptMessages(x)), Renaming(KeptChats(x), f.chats)), f.messages),
      Copied(t.lorebooks, x.lorebooks, f.lorebooks),
      Copied(t.presets, x.presets, f.presets))
  }

  /** Copying adds one row per record and touches no other. */
  ghost predicate CopyAdds<V>(prior: map<Id, V>, recs: seq<Rec<V>>, ids: seq<Id>, t: map<Id, V>)
    requires |recs| == |ids|
  {
    && (forall k :: k in prior ==> k in t && t[k] == prior[k])
    && (forall i :: 0 <= i < |recs| ==> ids[i] in t && t[ids[i]] == recs[i].row)
    && (forall k :: k in t ==> k in prior || k in ids)
    && |t| == |prior| + |recs|
  }

  lemma CopiedAdds<V>(prior: map<Id, V>, recs: seq<Rec<V>>, ids: seq<Id>)
    requires |recs| == |ids| && Unused(ids, prior)
    ensures CopyAdds(prior, recs, ids, Copied(prior, recs, ids))
  {
    var out := Rekeyed(recs, ids);
    assert Distinct(out);
    TableOfIndexed(out);
    hide TableOf, Rekeyed, Distinct, Unused, CopyAdds;
    AddsRows(prior, recs, ids, TableOf(out));
  }

  lemma AddsRows<V>(prior: map<Id, V>, recs: seq<Rec<V>>, ids: seq<Id>, m: map<Id, V>)
    requires |recs| == |ids| == |m| && Unused(ids, prior)
    requires forall i :: 0 <= i < |recs| ==> ids[i] in m && m[ids[i]] == recs[i].row
    requires forall k :: k in m ==> exists i :: 0 <= i < |ids| && ids[i] == k
    ensures CopyAdds(prior, recs, ids, prior + m)
  {
    assert prior.Keys !! m.Keys by {
      forall k | k in m ensures k in ids && k !in prior {
        var i :| 0 <= i < |ids| && ids[i] == k;
        assert ids[i] in ids;
      }
    }
    UnionSize(prior, m);
  }

  lemma TableOfIndexed<V>(recs: seq<Rec<V>>)
    requires Distinct(recs)
    ensures forall i :: 0 <= i < |recs| ==> recs[i].id in TableOf(recs) && TableOf(recs)[recs[i].id] == recs[i].row
    ensures forall k :: k in TableOf(recs) ==> exists i :: 0 <= i < |recs| && recs[i].id == k
    ensures |TableOf(recs)| == |recs|
  {
    TableOfMeans(recs);
    hide TableOf;
    forall i | 0 <= i < |recs| ensures recs[i].id in TableOf(recs) && TableOf(recs)[recs[i].id] == recs[i].row {
      assert recs[i] in recs;
    }
    forall k | k in TableOf(recs) ensures exists i :: 0 <= i < |recs| && recs[i].id == k {
      var r :| r in recs && r.id == k;
      var i :| 0 <= i < |recs| && recs[i] == r;
      assert recs[i].id == k;
    }
  }

  lemma UnionSize<V>(a: map<Id, V>, b: map<Id, V>)
    requires a.Keys !! b.Keys
    ensures |a + b| == |a| + |b|
  {
    assert (a + b).Keys == a.Keys + b.Keys;
    assert |a + b| == |(a + b).Keys| && |a| == |a.Keys| && |b| == |b.Keys|;
  }

  /** `t` is `prior` plus a copy of each chat under `ids`, belonging to the copy of its character. */
  ghost predicate ChatsFollow(prior: map<Id, Chat>, recs: seq<Rec<Chat>>, ids: seq<Id>, t: map<Id, Chat>,
                              characters: seq<Rec<Character>>, copies: seq<Id>)
    requires |recs| == |ids| && |characters| == |copies|
  {
    && (forall k :: k in prior ==> k in t && t[k] == prior[k]) && |t| == |prior| + |recs|
    && (forall i, j :: 0 <= i < |recs| && 0 <= j < |characters| && characters[j].id == recs[i].row.character ==>
          ids[i] in t && t[ids[i]] == recs[i].row.(character := copies[j]))
  }

  /** The same for messages and their chats. */
  ghost predicate MessagesFollow(prior: map<Id, Message>, recs: seq<Rec<Message>>, ids: seq<Id>, t: map<Id, Message>,
                                 chats: seq<Rec<Chat>>, copies: seq<Id>)
    requires |recs| == |ids| && |chats| == |copies|
  {
    && (forall k :: k in prior ==> k in t && t[k] == prior[k]) && |t| == |prior| + |recs|
    && (forall i, j :: 0 <= i < |recs| && 0 <= j < |chats| && chats[j].id == recs[i].row.chat ==>
          ids[i] in t && t[ids[i]] == recs[i].row.(chat := copies[j]))
  }

  /**
   * A remapping import leaves every row alone and adds a copy of the kept records under ids nobody
   * used, in which each chat belongs to the copy of its character and each message to the copy of its chat.
   */
  lemma RemapIsIsomorphicCopy(t: Tables, x: Incoming, f: Fresh)
    requires AllDistinct(x) && FreshFor(f, t, x)
    ensures var u := Remapped(t, x, f);
      && CopyAdds(t.characters, x.characters, f.characters, u.characters)
      && ChatsFollow(t.chats, KeptChats(x), f.chats, u.chats, x.characters, f.characters)
      && MessagesFollow(t.messages, ToRows(KeptMessages(x)), f.messages, u.messages, KeptChats(x), f.chats)
      && CopyAdds(t.lorebooks, x.lorebooks, f.lorebooks, u.lorebooks)
      && CopyAdds(t.presets, x.presets, f.presets, u.presets)
  {
    hide KeptChats, KeptMessages, Renaming, Copied, Unused, ChatsFollow, MessagesFollow, CopyAdds, Distinct, Ids, ToRows;
    RemapReferences(x, f);
    KeptDistinct(x);
    RenamingMeans(x.characters, f.characters);
    RenamingMeans(KeptChats(x), f.chats);
    CopiedAdds(t.characters, x.characters, f.characters);
    CopiedAdds(t.lorebooks, x.lorebooks, f.lorebooks);
    CopiedAdds(t.presets, x.presets, f.presets);
    var people, chats := Renaming(x.characters, f.characters), Renaming(KeptChats(x), f.chats);
    CopiedAdds(t.chats, ChatsFor(KeptChats(x), people), f.chats);
    CopiedAdds(t.messages, MessagesFor(ToRows(KeptMessages(x)), chats), f.messages);
    var u := Remapped(t, x, f);
    ChatCopiesFollow(t.chats, KeptChats(x), people, f.chats, u.chats, x.characters, f.characters);
    MessageCopiesFollow(t.messages, ToRows(KeptMessages(x)), chats, f.messages, u.messages, KeptChats(x), f.chats);
  }

  lemma ChatCopiesFollow(prior: map<Id, Chat>, recs: seq<Rec<Chat>>, to: map<Id, Id>, ids: seq<Id>, t: map<Id, Chat>,
                         characters: seq<Rec<Character>>, copies: seq<Id>)
    requires |recs| == |ids| && |characters| == |copies| && (forall r :: r in recs ==> r.row.character in to)
    requires CopyAdds(prior, ChatsFor(recs, to), ids, t)
    requires forall j :: 0 <= j < |characters| ==> characters[j].id in to && to[characters[j].id] == copies[j]
    ensures ChatsFollow(prior, recs, ids, t, characters, copies)
  {
  }

  lemma MessageCopiesFollow(prior: map<Id, Message>, recs: seq<Rec<Message>>, to: map<Id, Id>, ids: seq<Id>,
                            t: map<Id, Message>, chats: seq<Rec<Chat>>, copies: seq<Id>)
    requires |recs| == |ids| && |chats| == |copies| && (forall r :: r in recs ==> r.row.chat in to)
    requires CopyAdds(prior, MessagesFor(recs, to), ids, t)
    requires forall j :: 0 <= j < |chats| ==> chats[j].id in to && to[chats[j].id] == copies[j]
    ensures MessagesFollow(prior, recs, ids, t, chats, copies)
  {
  }

  /** So it keeps the foreign keys, too. */
  lemma RemapKeepsForeignKeys(t: Tables, x: Incoming, f: Fresh)
    requires Consistent(t) && AllDistinct(x) && FreshFor(f, t, x)
    ensures Consistent(Remapped(t, x, f))
  {
    hide KeptChats, KeptMessages, Renaming, Copied, Unused, Distinct, Ids, ToRows, ChatsFor, MessagesFor;
    RemapReferences(x, f);
    KeptDistinct(x);
    var people, chats := Renaming(x.characters, f.characters), Renaming(KeptChats(x), f.chats);
    CopiedAdds(t.characters, x.characters, f.characters);
    CopiedAdds(t.chats, ChatsFor(KeptChats(x), people), f.chats);
    CopiedAdds(t.messages, MessagesFor(ToRows(KeptMessages(x)), chats), f.messages);
    var u := Remapped(t, x, f);
    RenamedAll(x.characters, f.characters);
    RenamedAll(KeptChats(x), f.chats);
    CopiesRefer(t.characters, x.characters, f.characters, u.characters, people);
    CopiesRefer(t.chats, ChatsFor(KeptChats(x), people), f.chats, u.chats, chats);
    hide CopyAdds;
    CopiedChatsRefer(t, KeptChats(x), people, f.chats, u);
    CopiedMessagesRefer(t, ToRows(KeptMessages(x)), chats, f.messages, u);
  }

  lemma CopiesRefer<V>(prior: map<Id, V>, recs: seq<Rec<V>>, ids: seq<Id>, t: map<Id, V>, to: map<Id, Id>)
    requires |recs| == |ids| && CopyAdds(prior, recs, ids, t) && forall k :: k in to ==> to[k] in ids
    ensures forall k :: k in to ==> to[k] in t
  {
  }

  lemma CopiedChatsRefer(t: Tables, recs: seq<Rec<Chat>>, people: map<Id, Id>, ids: seq<Id>, u: Tables)
    requires |recs| == |ids| && (forall r :: r in recs ==> r.row.character in people) && Consistent(t)
    requires CopyAdds(t.chats, ChatsFor(recs, people), ids, u.chats)
    requires forall k :: k in t.characters ==> k in u.characters
    requires forall k :: k in people ==> people[k] in u.characters
    ensures forall c :: c in u.chats ==> u.chats[c].character in u.characters
  {
    forall c | c in u.chats ensures u.chats[c].character in u.characters {
      if c !in t.chats {
        var i :| 0 <= i < |ids| && ids[i] == c;
        assert recs[i] in recs;
      }
    }
  }

  lemma CopiedMessagesRefer(t: Tables, recs: seq<Rec<Message>>, chats: map<Id, Id>, ids: seq<Id>, u: Tables)
    requires |recs| == |ids| && (forall r :: r in recs ==> r.row.chat in chats) && Consistent(t)
    requires CopyAdds(t.messages, MessagesFor(recs, chats), ids, u.messages)
    requires forall k :: k in t.chats ==> k in u.chats
    requires forall k :: k in chats ==> chats[k] in u.chats
    ensures forall m :: m in u.messages ==> u.messages[m].chat in u.chats
  {
    forall m | m in u.messages ensures u.messages[m].chat in u.chats {
      if m !in t.messages {
        var i :| 0 <= i < |ids| && ids[i] == m;
        assert recs[i] in recs;
      }
    }
  }

  lemma RenamedAll<V>(recs: seq<Rec<V>>, ids: seq<Id>)
    requires |recs| == |ids| && Distinct(recs)
    ensures forall k :: k in Renaming(recs, ids) ==> Renaming(recs, ids)[k] in ids
  {
    hide Renaming;
    forall k | k in Renaming(recs, ids) ensures Renaming(recs, ids)[k] in ids {
      Renamed(recs, ids, k);
    }
  }

  /** A renamed id is one of the fresh ones. */
  lemma Renamed<V>(recs: seq<Rec<V>>, ids: seq<Id>, id: Id)
    requires |recs| == |ids| && Distinct(recs) && id in Renaming(recs, ids)
    ensures exists i :: 0 <= i < |ids| && Renaming(recs, ids)[id] == ids[i]
  {
    RenamingMeans(recs, ids);
    var r :| r in recs && r.id == id;
    var i :| 0 <= i < |recs| && recs[i] == r;
    assert Renaming(recs, ids)[recs[i].id] == ids[i];
  }
}
