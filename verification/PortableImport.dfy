/** Applying a container to a database: `apply_import`. */
module PortableImport {
  import opened Base
  import opened Text
  import opened Ndjson
  import opened Transfer
  import opened Portable

  datatype Orphan = ChatOrphan(id: Id, character: Id) | MessageOrphan(id: Id, chat: Id)

  datatype Report = Report(inserted: nat, updated: nat, skipped: nat, orphans: seq<Orphan>)

  function ChatOrphans(chats: seq<Rec<Chat>>, characters: set<Id>): seq<Orphan> {
    if chats == [] then []
    else
      var last := chats[|chats| - 1];
      ChatOrphans(chats[..|chats| - 1], characters) +
      if last.row.character in characters then [] else [ChatOrphan(last.id, last.row.character)]
  }

  function MessageOrphans(messages: seq<Rec<WireMessage>>, chats: set<Id>): seq<Orphan> {
    if messages == [] then []
    else
      var last := messages[|messages| - 1];
      MessageOrphans(messages[..|messages| - 1], chats) +
      if last.row.chat in chats then [] else [MessageOrphan(last.id, last.row.chat)]
  }

  /** Every record that is not kept, reported in order. */
  function Orphans(x: Incoming): seq<Orphan> {
    ChatOrphans(x.chats, Ids(x.characters)) + MessageOrphans(x.messages, Ids(KeptChats(x)))
  }

  function Total(x: Incoming): nat {
    |x.characters| + |x.chats| + |x.messages| + |x.lorebooks| + |x.presets|
  }

  /** Each record is either kept or reported. */
  lemma {:induction false} KeptOrOrphan(chats: seq<Rec<Chat>>, messages: seq<Rec<WireMessage>>, people: set<Id>, rooms: set<Id>)
    ensures |ChatsOf(chats, people)| + |ChatOrphans(chats, people)| == |chats|
    ensures |MessagesOf(messages, rooms)| + |MessageOrphans(messages, rooms)| == |messages|
    decreases |chats| + |messages|
  {
    if chats != [] {
      KeptOrOrphan(chats[..|chats| - 1], messages, people, rooms);
    } else if messages != [] {
      KeptOrOrphan(chats, messages[..|messages| - 1], people, rooms);
    }
  }

  function Size(t: Tables): nat {
    |t.characters| + |t.chats| + |t.messages| + |t.lorebooks| + |t.presets|
  }

  /** How many of the records have an id not in `known`. */
  function Missing<V>(recs: seq<Rec<V>>, known: set<Id>): nat {
    if recs == [] then 0
    else Missing(recs[..|recs| - 1], known) + if recs[|recs| - 1].id in known then 0 else 1
  }

  /** A merge grows a table by the records it did not have. */
  lemma {:induction false} MergedSize<V>(table: map<Id, V>, recs: seq<Rec<V>>, policy: Policy)
    requires Distinct(recs) && !policy.Remap?
    ensures |Merged(table, TableOf(recs), policy)| == |table| + Missing(recs, table.Keys)
  {
    if recs == [] {
      assert Merged(table, TableOf(recs), policy) == table;
    } else {
      var i := |recs| - 1;
      MergedSize(table, recs[..i], policy);
      ImportOne(table, recs, i, policy);
      assert recs[..i + 1] == recs;
    }
  }

  /** One section under `Reject` or `Replace`: probe each id, then skip, update or insert. */
  method ImportSection<V>(table: map<Id, V>, recs: seq<Rec<V>>, policy: Policy)
    returns (out: map<Id, V>, inserted: nat, updated: nat, skipped: nat)
    requires Distinct(recs) && !policy.Remap?
    ensures out == Merged(table, TableOf(recs), policy)
    ensures inserted + updated + skipped == |recs| && inserted == Missing(recs, table.Keys)
    ensures policy.Reject? ==> updated == 0
    ensures policy.Replace? ==> skipped == 0
  {
    out, inserted, updated, skipped := table, 0, 0, 0;
    assert Merged(table, TableOf(recs[..0]), policy) == table;
    hide TableOf, Merged, Distinct;
    for i := 0 to |recs|
      invariant out == Merged(table, TableOf(recs[..i]), policy)
      invariant inserted + updated + skipped == i && inserted == Missing(recs[..i], table.Keys)
      invariant policy.Reject? ==> updated == 0
      invariant policy.Replace? ==> skipped == 0
    {
      var r := recs[i];
      ImportOne(table, recs, i, policy);
      assert recs[..i + 1][..i] == recs[..i];
      if r.id in out {
        if policy.Reject? {
          skipped := skipped + 1;
        } else {
          out := out[r.id := r.row];
          updated := updated + 1;
        }
      } else {
        out := out[r.id := r.row];
        inserted := inserted + 1;
      }
    }
    assert recs[..|recs|] == recs;
  }

  /** How the merged table grows by one record. */
  lemma ImportOne<V>(table: map<Id, V>, recs: seq<Rec<V>>, i: nat, policy: Policy)
    requires Distinct(recs) && i < |recs| && !policy.Remap?
    ensures var before, after := Merged(table, TableOf(recs[..i]), policy), Merged(table, TableOf(recs[..i + 1]), policy);
      && (recs[i].id in before <==> recs[i].id in table)
      && after == if recs[i].id in table && policy.Reject? then before else before[recs[i].id := recs[i].row]
  {
    var init := recs[..i];
    assert recs[..i + 1][..i] == init && Distinct(init);
    assert TableOf(recs[..i + 1]) == TableOf(init)[recs[i].id := recs[i].row];
    assert recs[i].id !in TableOf(init) by { TableOfIndexed(init); }
    hide TableOf, Distinct, Merged;
    MergeOne(table, TableOf(init), recs[i].id, recs[i].row, policy);
  }

  lemma MergeOne<V>(table: map<Id, V>, m: map<Id, V>, id: Id, row: V, policy: Policy)
    requires id !in m && !policy.Remap?
    ensures var before, after := Merged(table, m, policy), Merged(table, m[id := row], policy);
      && (id in before <==> id in table)
      && after == if id in table && policy.Reject? then before else before[id := row]
  {
    var before, after := Merged(table, m, policy), Merged(table, m[id := row], policy);
    if policy.Reject? {
      assert id in table ==> after == before;
      assert id !in table ==> after == before[id := row];
    } else {
      assert after == before[id := row];
    }
  }

  /** One section under `Remap`: everything is inserted, under the given fresh ids. */
  method RemapSection<V>(table: map<Id, V>, recs: seq<Rec<V>>, ids: seq<Id>) returns (out: map<Id, V>, inserted: nat)
    requires |recs| == |ids| && Unused(ids, table)
    ensures out == Copied(table, recs, ids) && inserted == |recs|
  {
    out, inserted := table, 0;
    ghost var keyed := Rekeyed(recs, ids);
    assert TableOf(keyed[..0]) == map[];
    for i := 0 to |recs|
      invariant out == table + TableOf(keyed[..i]) && inserted == i
    {
      assert keyed[..i + 1][..i] == keyed[..i];
      out := out[ids[i] := recs[i].row];
      inserted := inserted + 1;
    }
    assert keyed[..|recs|] == keyed;
  }

  /** The renaming that the remap pass builds for one section. */
  method BuildRenaming<V>(recs: seq<Rec<V>>, ids: seq<Id>) returns (to: map<Id, Id>)
    requires |recs| == |ids|
    ensures to == Renaming(recs, ids)
  {
    to := map[];
    for i := 0 to |recs|
      invariant to == Renaming(recs[..i], ids)
    {
      assert recs[..i + 1][..i] == recs[..i];
      to := to[recs[i].id := ids[i]];
    }
    assert recs[..|recs|] == recs;
  }

  /** Splits chats and messages into the ones whose reference is there and the orphans. */
  method SplitOrphans(x: Incoming) returns (chats: seq<Rec<Chat>>, messages: seq<Rec<WireMessage>>, orphans: seq<Orphan>)
    ensures chats == KeptChats(x) && messages == KeptMessages(x) && orphans == Orphans(x)
  {
    var people := Ids(x.characters);
    chats, messages, orphans := [], [], [];
    for i := 0 to |x.chats|
      invariant chats == ChatsOf(x.chats[..i], people) && orphans == ChatOrphans(x.chats[..i], people)
    {
      var chat := x.chats[i];
      assert x.chats[..i + 1][..i] == x.chats[..i];
      if chat.row.character !in people {
        orphans := orphans + [ChatOrphan(chat.id, chat.row.character)];
      } else {
        chats := chats + [chat];
      }
    }
    assert x.chats[..|x.chats|] == x.chats;
    var rooms := Ids(chats);
    ghost var before := orphans;
    assert before + [] == before;
    for i := 0 to |x.messages|
      invariant messages == MessagesOf(x.messages[..i], rooms)
      invariant orphans == before + MessageOrphans(x.messages[..i], rooms)
    {
      var message := x.messages[i];
      assert x.messages[..i + 1][..i] == x.messages[..i];
      if message.row.chat !in rooms {
        orphans := orphans + [MessageOrphan(message.id, message.row.chat)];
      } else {
        messages := messages + [message];
      }
    }
    assert x.messages[..|x.messages|] == x.messages;
  }

  /** What an import of the records `x` does to the tables, and what it reports. */
  ghost predicate Applied(t: Tables, x: Incoming, policy: Policy, supply: Fresh, t': Tables, report: Report) {
    && AllDistinct(x)
    && (if policy.Remap? then FreshFor(supply, t, x) && t' == Remapped(t, x, supply) else t' == Imported(t, x, policy))
    && report.orphans == Orphans(x)
    && report.inserted + report.updated + report.skipped == Total(x)
    && Size(t') == Size(t) + report.inserted
    && (!policy.Replace? ==> report.updated == 0)
    && (!policy.Reject? ==> report.skipped == |report.orphans|)
  }

  lemma AppliedMeans(t: Tables, x: Incoming, policy: Policy, supply: Fresh, t': Tables, report: Report)
    requires AllDistinct(x)
    requires if policy.Remap? then FreshFor(supply, t, x) && t' == Remapped(t, x, supply) else t' == Imported(t, x, policy)
    requires report.orphans == Orphans(x) && report.inserted + report.updated + report.skipped == Total(x)
    requires Size(t') == Size(t) + report.inserted
    requires !policy.Replace? ==> report.updated == 0
    requires !policy.Reject? ==> report.skipped == |report.orphans|
    ensures Applied(t, x, policy, supply, t', report)
  {
    hide AllDistinct, FreshFor, Remapped, Imported, Orphans, Total, Size;
  }

  /** How many kept records an import has to insert. */
  function MissingAll(x: Incoming, t: Tables): nat {
    Missing(x.characters, t.characters.Keys) + Missing(KeptChats(x), t.chats.Keys) +
    Missing(ToRows(KeptMessages(x)), t.messages.Keys) + Missing(x.lorebooks, t.lorebooks.Keys) +
    Missing(x.presets, t.presets.Keys)
  }

  lemma ImportedSize(t: Tables, x: Incoming, policy: Policy)
    requires AllDistinct(x) && !policy.Remap?
    ensures Size(Imported(t, x, policy)) == Size(t) + MissingAll(x, t)
  {
    KeptDistinct(x);
    hide Merged, TableOf, KeptChats, KeptMessages, ToRows, Missing, Distinct;
    MergedSize(t.characters, x.characters, policy);
    MergedSize(t.chats, KeptChats(x), policy);
    MergedSize(t.messages, ToRows(KeptMessages(x)), policy);
    MergedSize(t.lorebooks, x.lorebooks, policy);
    MergedSize(t.presets, x.presets, policy);
  }

  lemma {:induction false} MissingNone<V>(recs: seq<Rec<V>>, known: set<Id>)
    requires forall r :: r in recs ==> r.id in known
    ensures Missing(recs, known) == 0
  {
    if recs != [] {
      MissingNone(recs[..|recs| - 1], known);
    }
  }

  lemma MergedHasAll<V>(table: map<Id, V>, recs: seq<Rec<V>>, policy: Policy)
    requires Distinct(recs)
    ensures Missing(recs, Merged(table, TableOf(recs), policy).Keys) == 0
  {
    TableOfMeans(recs);
    MissingNone(recs, Merged(table, TableOf(recs), policy).Keys);
  }

  /** A second import of the same container, under either policy, inserts nothing and changes nothing. */
  lemma SecondImportIsIdle(t: Tables, x: Incoming, policy: Policy, again: Policy)
    requires AllDistinct(x) && (again == policy || again.Reject?)
    ensures var u := Imported(t, x, policy); Imported(u, x, again) == u && MissingAll(x, u) == 0
  {
    ImportIsIdempotent(t, x, policy);
    KeptDistinct(x);
    hide TableOf, KeptChats, KeptMessages, ToRows, Merged, Missing, Distinct;
    MergedHasAll(t.characters, x.characters, policy);
    MergedHasAll(t.chats, KeptChats(x), policy);
    MergedHasAll(t.messages, ToRows(KeptMessages(x)), policy);
    MergedHasAll(t.lorebooks, x.lorebooks, policy);
    MergedHasAll(t.presets, x.presets, policy);
  }

  /** `Remapped`, put together from its sections. */
  lemma RemappedIs(t: Tables, x: Incoming, f: Fresh, t': Tables)
    requires AllDistinct(x) && FreshFor(f, t, x)
    requires forall r :: r in KeptChats(x) ==> r.row.character in Renaming(x.characters, f.characters)
    requires forall r :: r in ToRows(KeptMessages(x)) ==> r.row.chat in Renaming(KeptChats(x), f.chats)
    requires t'.characters == Copied(t.characters, x.characters, f.characters)
    requires t'.chats == Copied(t.chats, ChatsFor(KeptChats(x), Renaming(x.characters, f.characters)), f.chats)
    requires t'.messages == Copied(t.messages, MessagesFor(ToRows(KeptMessages(x)), Renaming(KeptChats(x), f.chats)), f.messages)
    requires t'.lorebooks == Copied(t.lorebooks, x.lorebooks, f.lorebooks)
    requires t'.presets == Copied(t.presets, x.presets, f.presets)
    ensures t' == Remapped(t, x, f)
  {
    hide Copied, KeptChats, KeptMessages, ToRows, Renaming, Unused, Distinct, ChatsFor, MessagesFor;
  }

  lemma RemappedSize(t: Tables, x: Incoming, f: Fresh)
    requires AllDistinct(x) && FreshFor(f, t, x)
    ensures Size(Remapped(t, x, f)) == Size(t) + |x.characters| + |KeptChats(x)| + |KeptMessages(x)| + |x.lorebooks| + |x.presets|
  {
    RemapReferences(x, f);
    hide KeptChats, KeptMessages, ToRows, Renaming, Unused, Distinct, Copied;
    var people, rooms := Renaming(x.characters, f.characters), Renaming(KeptChats(x), f.chats);
    CopySize(t.characters, x.characters, f.characters);
    CopySize(t.chats, ChatsFor(KeptChats(x), people), f.chats);
    CopySize(t.messages, MessagesFor(ToRows(KeptMessages(x)), rooms), f.messages);
    CopySize(t.lorebooks, x.lorebooks, f.lorebooks);
    CopySize(t.presets, x.presets, f.presets);
  }

  lemma OrphanCount(x: Incoming)
    ensures Total(x) == |x.characters| + |KeptChats(x)| + |KeptMessages(x)| + |x.lorebooks| + |x.presets| + |Orphans(x)|
  {
    KeptOrOrphan(x.chats, x.messages, Ids(x.characters), Ids(KeptChats(x)));
  }

  class Database {
    var characters: map<Id, Character>
    var chats: map<Id, Chat>
    var messages: map<Id, Message>
    var lorebooks: map<Id, string>
    var presets: map<Id, string>
    /** `messages.generation_run_id`, which no import writes. */
    var runLinks: map<Id, Id>

    function T(): Tables
      reads this
    {
      Tables(characters, chats, messages, lorebooks, presets)
    }

    constructor ()
      ensures T() == EMPTY && runLinks == map[]
    {
      characters, chats, messages, lorebooks, presets, runLinks := map[], map[], map[], map[], map[], map[];
    }

    /**
     * `apply_import`: everything is checked first, then applied in one transaction. `supply` stands for
     * the ids that a remapping import draws.
     */
    method ApplyImport(k: Codecs, c: Container, policy: Policy, supply: Fresh) returns (r: Result<Report, ImportError>)
      requires policy.Remap? && Checked(k, c).Ok? ==> FreshFor(supply, T(), Checked(k, c).value)
      modifies this
      ensures runLinks == old(runLinks)
      ensures match Checked(k, c)
              case Err(e) => r == Err(e) && T() == old(T())
              case Ok(x) => r.Ok? && Applied(old(T()), x, policy, supply, T(), r.value)
    {
      hide AllDistinct, FreshFor, Remapped, Imported, Orphans, Total, Size, Applied, Checked, KeptChats, KeptMessages, MissingAll;
      var read := ReadContainer(k, c);
      if read.Err? {
        return Err(read.error);
      }
      var x := read.value;
      CheckedDistinct(k, c);
      var chats, messages, orphans := SplitOrphans(x);
      OrphanCount(x);
      var inserted, updated, skipped;
      if policy.Remap? {
        RemappedSize(T(), x, supply);
        inserted := RemapAll(x, chats, messages, supply);
        updated, skipped := 0, |orphans|;
      } else {
        ImportedSize(T(), x, policy);
        inserted, updated, skipped := MergeAll(x, chats, messages, policy);
        skipped := skipped + |orphans|;
      }
      var report := Report(inserted, updated, skipped, orphans);
      AppliedMeans(old(T()), x, policy, supply, T(), report);
      return Ok(report);
    }

    /** The transaction under `Reject` and `Replace`. */
    method MergeAll(x: Incoming, kept: seq<Rec<Chat>>, said: seq<Rec<WireMessage>>, policy: Policy)
      returns (inserted: nat, updated: nat, skipped: nat)
      requires AllDistinct(x) && !policy.Remap? && kept == KeptChats(x) && said == KeptMessages(x)
      modifies this`characters, this`chats, this`messages, this`lorebooks, this`presets
      ensures T() == Imported(old(T()), x, policy)
      ensures inserted + updated + skipped == |x.characters| + |kept| + |said| + |x.lorebooks| + |x.presets|
      ensures inserted == MissingAll(x, old(T()))
      ensures policy.Reject? ==> updated == 0
      ensures policy.Replace? ==> skipped == 0
    {
      assert Distinct(x.characters) && Distinct(x.lorebooks) && Distinct(x.presets);
      KeptDistinct(x);
      hide Merged, TableOf, KeptChats, KeptMessages, Distinct, ToRows, Missing;
      var i, u, s;
      characters, inserted, updated, skipped := ImportSection(characters, x.characters, policy);
      chats, i, u, s := ImportSection(chats, kept, policy);
      inserted, updated, skipped := inserted + i, updated + u, skipped + s;
      messages, i, u, s := ImportSection(messages, ToRows(said), policy);
      inserted, updated, skipped := inserted + i, updated + u, skipped + s;
      lorebooks, i, u, s := ImportSection(lorebooks, x.lorebooks, policy);
      inserted, updated, skipped := inserted + i, updated + u, skipped + s;
      presets, i, u, s := ImportSection(presets, x.presets, policy);
      inserted, updated, skipped := inserted + i, updated + u, skipped + s;
    }

    /** Chats move to the copies of their characters. */
    method RemapChats(recs: seq<Rec<Chat>>, people: map<Id, Id>, ids: seq<Id>) returns (n: nat)
      requires |recs| == |ids| && Unused(ids, chats) && forall r :: r in recs ==> r.row.character in people
      modifies this`chats
      ensures chats == Copied(old(chats), ChatsFor(recs, people), ids) && n == |recs|
    {
      hide Copied, Unused;
      chats, n := RemapSection(chats, ChatsFor(recs, people), ids);
    }

    /** Messages move to the copies of their chats. */
    method RemapMessages(recs: seq<Rec<Message>>, rooms: map<Id, Id>, ids: seq<Id>) returns (n: nat)
      requires |recs| == |ids| && Unused(ids, messages) && forall r :: r in recs ==> r.row.chat in rooms
      modifies this`messages
      ensures messages == Copied(old(messages), MessagesFor(recs, rooms), ids) && n == |recs|
    {
      hide Copied, Unused;
      messages, n := RemapSection(messages, MessagesFor(recs, rooms), ids);
    }

    /** The transaction under `Remap`. */
    method RemapAll(x: Incoming, kept: seq<Rec<Chat>>, said: seq<Rec<WireMessage>>, f: Fresh) returns (inserted: nat)
      requires AllDistinct(x) && kept == KeptChats(x) && said == KeptMessages(x) && FreshFor(f, T(), x)
      modifies this`characters, this`chats, this`messages, this`lorebooks, this`presets
      ensures T() == Remapped(old(T()), x, f)
      ensures inserted == |x.characters| + |kept| + |said| + |x.lorebooks| + |x.presets|
    {
      hide KeptChats, KeptMessages, Renaming, Unused, Copied, Distinct, ToRows, ChatsFor, MessagesFor, Remapped;
      RemapReferences(x, f);
      ghost var t := T();
      assert |f.characters| == |x.characters| && |f.chats| == |kept| && |f.messages| == |said|;
      assert |f.lorebooks| == |x.lorebooks| && |f.presets| == |x.presets|;
      assert Unused(f.characters, characters) && Unused(f.chats, chats) && Unused(f.messages, messages);
      assert Unused(f.lorebooks, lorebooks) && Unused(f.presets, presets);
      hide FreshFor, AllDistinct;
      var people := BuildRenaming(x.characters, f.characters);
      var rooms := BuildRenaming(kept, f.chats);
      var a, b, c, d, e;
      characters, a := RemapSection(characters, x.characters, f.characters);
      b := RemapChats(kept, people, f.chats);
      c := RemapMessages(ToRows(said), rooms, f.messages);
      lorebooks, d := RemapSection(lorebooks, x.lorebooks, f.lorebooks);
      presets, e := RemapSection(presets, x.presets, f.presets);
      inserted := a + b + c + d + e;
      RemappedIs(t, x, f, T());
    }
  }

  lemma CopySize<V>(prior: map<Id, V>, recs: seq<Rec<V>>, ids: seq<Id>)
    requires |recs| == |ids| && Unused(ids, prior)
    ensures |Copied(prior, recs, ids)| == |prior| + |recs|
  {
    CopiedAdds(prior, recs, ids);
  }

  /** What passes the checks has no duplicate ids, and only messages a row can hold. */
  lemma CheckedDistinct(k: Codecs, c: Container)
    requires Checked(k, c).Ok?
    ensures AllDistinct(Checked(k, c).value)
    ensures MessageFault(Checked(k, c).value.messages).None?
  {
    hide Verified, Parsed, MessageFault;
  }
}
