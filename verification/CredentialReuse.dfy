/** Credential reuse across the fleet (internal/scan/reuse.go): per-host inventories, the inverted index
    built from them, and the findings raised for the host just scanned. */
module CredentialReuse {
  import opened Strings
  import opened Wrappers

  /** Digest categories. The first three are compared across hosts. */
  datatype Category = AuthorizedKeys | PasswordHashes | PrivateKeys | OtherCategory(name: string)

  /** What one host had at its last scan: items "account:id" or "account:id:state" by category. */
  datatype Inventory = Inventory(hostID: string, items: map<Category, seq<string>>)

  datatype Holder = Holder(host: string, accounts: seq<string>, state: string)

  function ItemsOf(inv: Inventory, category: Category): seq<string> {
    if category in inv.items then inv.items[category] else []
  }

  // ---------------------------------------------------------------- items

  datatype Entry = Entry(account: string, id: string, state: string)

  /** An item with fewer than two parts is skipped. */
  function EntryOf(item: string): Option<Entry> {
    var parts := Split(item, ':');
    if |parts| < 2 then None else Some(Entry(parts[0], parts[1], if |parts| > 2 then parts[2] else ""))
  }

  predicate Names(item: string, id: string) {
    EntryOf(item).Some? && EntryOf(item).value.id == id
  }

  /** The accounts whose items name id, in item order. */
  function Accounts(items: seq<string>, id: string): seq<string> {
    if items == [] then [] else
      var front, last := items[..|items| - 1], items[|items| - 1];
      if Names(last, id) then Accounts(front, id) + [EntryOf(last).value.account] else Accounts(front, id)
  }

  /** The state in the first item that names id. */
  function FirstState(items: seq<string>, id: string): string {
    if items == [] then "" else
      var front, last := items[..|items| - 1], items[|items| - 1];
      if Accounts(front, id) == [] && Names(last, id) then EntryOf(last).value.state else FirstState(front, id)
  }

  function HolderOf(inv: Inventory, category: Category, id: string): Holder {
    Holder(inv.hostID, Accounts(ItemsOf(inv, category), id), FirstState(ItemsOf(inv, category), id))
  }

  predicate Holds(inv: Inventory, category: Category, id: string) {
    Accounts(ItemsOf(inv, category), id) != []
  }

  // ---------------------------------------------------------------- what an item's text says

  /** The text of an item that gives an account an id: "account:id", or "account:id:state" with perhaps more
      after another colon. */
  ghost predicate Spells(item: string, account: string, id: string, state: string) {
    && ':' !in account && ':' !in id && ':' !in state
    && (|| (item == account + ":" + id && state == "")
        || item == account + ":" + id + ":" + state
        || exists more: string :: item == account + ":" + id + ":" + state + ":" + more)
  }

  lemma PartsOfTwo(account: string, id: string)
    requires ':' !in account && ':' !in id
    ensures Split(account + ":" + id, ':') == [account, id]
  {
    SplitAtFirst(account, ':', id);
    SplitWithout(id, ':');
  }

  lemma PartsOfMore(account: string, id: string, rest: string)
    requires ':' !in account && ':' !in id
    ensures Split(account + ":" + id + ":" + rest, ':') == [account, id] + Split(rest, ':')
  {
    assert account + ":" + id + ":" + rest == account + [':'] + (id + [':'] + rest);
    SplitAtFirst(account, ':', id + [':'] + rest);
    SplitAtFirst(id, ':', rest);
  }

  lemma FirstOfParts(s: string) returns (first: string, rest: string)
    ensures ':' !in first && Split(s, ':')[0] == first && (|Split(s, ':')| == 1 <==> ':' !in s)
    ensures (s == first && ':' !in s) || s == first + ":" + rest
  {
    var tail;
    first, tail := FirstPart(s, ':');
    if tail == "" {
      rest := "";
      SplitWithout(s, ':');
    } else {
      rest := tail[1..];
      assert tail == ":" + rest;
      assert s == first + [':'] + rest;
      SplitAtFirst(first, ':', rest);
    }
  }

  /** What is spelled is what is read. */
  lemma SpelledIsRead(item: string, account: string, id: string, state: string)
    requires Spells(item, account, id, state)
    ensures EntryOf(item) == Some(Entry(account, id, state))
  {
    if item == account + ":" + id && state == "" {
      PartsOfTwo(account, id);
    } else if item == account + ":" + id + ":" + state {
      PartsOfMore(account, id, state);
      SplitWithout(state, ':');
    } else {
      var more: string :| item == account + ":" + id + ":" + state + ":" + more;
      assert item == account + ":" + id + ":" + (state + [':'] + more);
      PartsOfMore(account, id, state + [':'] + more);
      SplitAtFirst(state, ':', more);
    }
  }

  lemma ReadMore(item: string, account: string, id: string, rest: string)
    requires ':' !in account && ':' !in id && item == account + ":" + id + ":" + rest
    ensures EntryOf(item).Some?
    ensures var e := EntryOf(item).value; Spells(item, e.account, e.id, e.state)
  {
    var state, more := FirstOfParts(rest);
    PartsOfMore(account, id, rest);
    assert EntryOf(item) == Some(Entry(account, id, state));
    if ':' in rest { assert item == account + ":" + id + ":" + state + ":" + more; }
  }

  /** What is read is spelled. */
  lemma ReadIsSpelled(item: string)
    requires ':' in item
    ensures EntryOf(item).Some?
    ensures var e := EntryOf(item).value; Spells(item, e.account, e.id, e.state)
  {
    var account, rest := FirstOfParts(item);
    if ':' in rest {
      var id, rest2 := FirstOfParts(rest);
      assert item == account + ":" + id + ":" + rest2;
      ReadMore(item, account, id, rest2);
    } else {
      PartsOfTwo(account, rest);
    }
  }

  /** An entry is read from an item exactly when the item spells it; an item without a colon spells none. */
  lemma EntryExactlyWhen(item: string, account: string, id: string, state: string)
    ensures EntryOf(item) == Some(Entry(account, id, state)) <==> Spells(item, account, id, state)
    ensures EntryOf(item) == None <==> ':' !in item
  {
    if ':' in item {
      ReadIsSpelled(item);
    } else {
      SplitWithout(item, ':');
    }
    if Spells(item, account, id, state) { SpelledIsRead(item, account, id, state); }
  }

  /** One of the items says that the account has id. */
  ghost predicate Says(items: seq<string>, account: string, id: string) {
    exists item, state :: item in items && Spells(item, account, id, state)
  }

  lemma NamesExactlyWhen(item: string, id: string)
    ensures Names(item, id) <==> exists account, state :: Spells(item, account, id, state)
  {
    if ':' in item { ReadIsSpelled(item); }
    if account, state :| Spells(item, account, id, state) { SpelledIsRead(item, account, id, state); }
    if Names(item, id) { EntryExactlyWhen(item, EntryOf(item).value.account, id, EntryOf(item).value.state); }
  }

  lemma SaysOneMore(front: seq<string>, last: string, account: string, id: string)
    ensures Says(front + [last], account, id) <==>
            Says(front, account, id) || (Names(last, id) && EntryOf(last).value.account == account)
  {
    if Names(last, id) && EntryOf(last).value.account == account {
      EntryExactlyWhen(last, account, id, EntryOf(last).value.state);
      assert (front + [last])[|front|] == last;
    }
    if item, state :| item in front + [last] && Spells(item, account, id, state) {
      SpelledIsRead(item, account, id, state);
    }
    if item, state :| item in front && Spells(item, account, id, state) {
      assert item in front + [last];
    }
  }

  /** The accounts listed under id are those that some item says have it. */
  lemma {:induction false} AccountsExactlyWhen(items: seq<string>, account: string, id: string)
    ensures account in Accounts(items, id) <==> Says(items, account, id)
  {
    if items == [] {
    } else {
      var front, last := items[..|items| - 1], items[|items| - 1];
      AccountsExactlyWhen(front, account, id);
      SaysOneMore(front, last, account, id);
      assert items == front + [last];
    }
  }

  /** They are listed in the order of the items, once for every item that names id. */
  lemma {:induction false} AccountsInItemOrder(before: seq<string>, item: string, after: seq<string>, id: string)
    ensures Accounts(before + [item] + after, id) == Accounts(before, id) + Accounts([item], id) + Accounts(after, id)
    ensures |Accounts([item], id)| == if exists account, state :: Spells(item, account, id, state) then 1 else 0
  {
    NamesExactlyWhen(item, id);
    AccountsOfLast([], item, id);
    if after == [] {
      AccountsOfLast(before, item, id);
      assert before + [item] + after == before + [item];
    } else {
      var front, last := after[..|after| - 1], after[|after| - 1];
      AccountsInItemOrder(before, item, front, id);
      AccountsOfLast(before + [item] + front, last, id);
      AccountsOfLast(front, last, id);
      assert before + [item] + after == before + [item] + front + [last] && after == front + [last];
    }
  }

  lemma AccountsOfLast(front: seq<string>, last: string, id: string)
    ensures Accounts(front + [last], id)
            == Accounts(front, id) + if Names(last, id) then [EntryOf(last).value.account] else []
  {
    assert (front + [last])[..|front|] == front;
  }

  lemma FirstStateLast(items: seq<string>, last: string, account: string, id: string, state: string)
    requires Spells(last, account, id, state) && Accounts(items, id) == []
    ensures FirstState(items + [last], id) == state && Accounts(items + [last], id) != []
  {
    SpelledIsRead(last, account, id, state);
    assert (items + [last])[..|items|] == items;
  }

  lemma LaterStateIgnored(items: seq<string>, last: string, id: string)
    requires Accounts(items, id) != []
    ensures FirstState(items + [last], id) == FirstState(items, id) && Accounts(items + [last], id) != []
  {
    assert (items + [last])[..|items|] == items;
  }

  /** The state is that of the first item that names id. */
  lemma {:induction false} FirstStateIs(before: seq<string>, item: string, after: seq<string>, account: string,
                                        id: string, state: string)
    requires Spells(item, account, id, state) && Accounts(before, id) == []
    ensures var items := before + [item] + after; FirstState(items, id) == state && Accounts(items, id) != []
  {
    if after == [] {
      FirstStateLast(before, item, account, id, state);
      assert before + [item] + after == before + [item];
    } else {
      var front, last := after[..|after| - 1], after[|after| - 1];
      FirstStateIs(before, item, front, account, id, state);
      var most := before + [item] + front;
      assert before + [item] + after == most + [last];
      LaterStateIgnored(most, last, id);
    }
  }

  /** A host holds id exactly when one of its items says that some account has it. */
  lemma HoldsExactlyWhen(inv: Inventory, category: Category, id: string)
    ensures Holds(inv, category, id) <==> exists account :: Says(ItemsOf(inv, category), account, id)
  {
    var items := ItemsOf(inv, category);
    if Holds(inv, category, id) {
      AccountsExactlyWhen(items, Accounts(items, id)[0], id);
    }
    if account :| Says(items, account, id) { AccountsExactlyWhen(items, account, id); }
  }

  // ---------------------------------------------------------------- the inverted index

  /** The holders of id, in inventory order. */
  function Holders(invs: seq<Inventory>, category: Category, id: string): seq<Holder> {
    if invs == [] then [] else
      var front, last := invs[..|invs| - 1], invs[|invs| - 1];
      if Holds(last, category, id) then Holders(front, category, id) + [HolderOf(last, category, id)]
      else Holders(front, category, id)
  }

  type ByID = map<string, seq<Holder>>

  /** An index lists, under each id anybody holds and no other, exactly its holders. */
  ghost predicate Indexes(index: ByID, invs: seq<Inventory>, category: Category) {
    forall id :: if id in index then index[id] != [] && index[id] == Holders(invs, category, id)
      else Holders(invs, category, id) == []
  }

  /** One host's entries: for each id its items name, the accounts and the first state. */
  ghost predicate Groups(byID: map<string, Holder>, host: string, items: seq<string>) {
    forall id :: if id in byID then byID[id] == Holder(host, Accounts(items, id), FirstState(items, id))
      && Accounts(items, id) != []
                 else Accounts(items, id) == []
  }

  method GroupItems(host: string, items: seq<string>) returns (byID: map<string, Holder>)
    ensures Groups(byID, host, items)
  {
    byID := map[];
    for n := 0 to |items|
      invariant Groups(byID, host, items[..n])
    {
      assert items[..n + 1][..n] == items[..n];
      var parts := Split(items[n], ':');
      if |parts| >= 2 {
        var id, state := parts[1], if |parts| > 2 then parts[2] else "";
        var h := if id in byID then byID[id] else Holder(host, [], state);
        byID := byID[id := h.(accounts := h.accounts + [parts[0]])];
      }
    }
    assert items[..|items|] == items;
  }

  function At<T>(m: map<string, seq<T>>, id: string): seq<T> {
    if id in m then m[id] else []
  }

  /** Appends one host's entries to the index, in whatever order the ids come. */
  method AppendHolders(index: ByID, byID: map<string, Holder>) returns (out: ByID)
    ensures out.Keys == index.Keys + byID.Keys
    ensures forall id :: id in out ==> out[id] == At(index, id) + if id in byID then [byID[id]] else []
  {
    out := index;
    var rest := byID.Keys;
    while rest != {}
      invariant rest <= byID.Keys && out.Keys == index.Keys + (byID.Keys - rest)
      invariant forall id :: id in out ==>
                  out[id] == At(index, id) + if id in byID && id !in rest then [byID[id]] else []
    {
      var id :| id in rest;
      rest := rest - {id};
      out := out[id := At(out, id) + [byID[id]]];
    }
  }

  lemma OneMoreInventory(index: ByID, invs: seq<Inventory>, category: Category, byID: map<string, Holder>, out: ByID)
    requires invs != [] && Indexes(index, invs[..|invs| - 1], category)
    requires Groups(byID, invs[|invs| - 1].hostID, ItemsOf(invs[|invs| - 1], category))
    requires out.Keys == index.Keys + byID.Keys
    requires forall id :: id in out ==> out[id] == At(index, id) + if id in byID then [byID[id]] else []
    ensures Indexes(out, invs, category)
  {
  }

  method Index(invs: seq<Inventory>, category: Category) returns (out: ByID)
    ensures Indexes(out, invs, category)
  {
    out := map[];
    for n := 0 to |invs|
      invariant Indexes(out, invs[..n], category)
    {
      assert invs[..n + 1][..n] == invs[..n];
      var byID := GroupItems(invs[n].hostID, ItemsOf(invs[n], category));
      var before := out;
      out := AppendHolders(before, byID);
      OneMoreInventory(before, invs[..n + 1], category, byID, out);
    }
    assert invs[..|invs|] == invs;
  }

  // ---------------------------------------------------------------- hosts, and the count of them

  predicate OnePerHost(invs: seq<Inventory>) {
    forall j, k :: 0 <= j < k < |invs| ==> invs[j].hostID != invs[k].hostID
  }

  /** The hosts that hold id. */
  function HostsWith(invs: seq<Inventory>, category: Category, id: string): set<string> {
    set k | 0 <= k < |invs| && Holds(invs[k], category, id) :: invs[k].hostID
  }

  /** The holders on other hosts. */
  function Elsewhere(holders: seq<Holder>, self: string): seq<Holder> {
    if holders == [] then [] else
      var front, last := holders[..|holders| - 1], holders[|holders| - 1];
      if last.host != self then Elsewhere(front, self) + [last] else Elsewhere(front, self)
  }

  lemma {:induction false} HostsOfFront(invs: seq<Inventory>, category: Category, id: string)
    requires invs != []
    ensures HostsWith(invs, category, id)
            == HostsWith(invs[..|invs| - 1], category, id)
              + (if Holds(invs[|invs| - 1], category, id) then {invs[|invs| - 1].hostID} else {})
  {
    var n := |invs| - 1;
    forall h
      ensures h in HostsWith(invs, category, id)
              <==> h in HostsWith(invs[..n], category, id) || (Holds(invs[n], category, id) && h == invs[n].hostID)
    {
      if h in HostsWith(invs, category, id) {
        var k :| 0 <= k < |invs| && Holds(invs[k], category, id) && h == invs[k].hostID;
        if k < n { assert invs[..n][k] == invs[k]; }
      }
      if h in HostsWith(invs[..n], category, id) {
        var k :| 0 <= k < n && Holds(invs[..n][k], category, id) && h == invs[..n][k].hostID;
        assert invs[k] == invs[..n][k];
      }
    }
  }

  lemma NewHost(invs: seq<Inventory>, category: Category, id: string)
    requires OnePerHost(invs) && invs != []
    ensures invs[|invs| - 1].hostID !in HostsWith(invs[..|invs| - 1], category, id)
  {
  }

  lemma ElsewhereAppend(holders: seq<Holder>, h: Holder, self: string)
    ensures Elsewhere(holders + [h], self) == Elsewhere(holders, self) + if h.host != self then [h] else []
  {
    assert (holders + [h])[..|holders|] == holders;
  }

  lemma OneMoreHost(hosts: set<string>, host: string, self: string)
    requires host !in hosts
    ensures |hosts + {host} - {self}| == |hosts - {self}| + if host != self then 1 else 0
  {
    if host == self {
      assert hosts + {host} - {self} == hosts - {self};
    } else {
      assert hosts + {host} - {self} == hosts - {self} + {host};
    }
  }

  /** With one inventory per host, the holders listed for other hosts are as many as the other hosts. */
  lemma {:induction false} ElsewhereCountsHosts(invs: seq<Inventory>, category: Category, id: string, self: string)
    requires OnePerHost(invs)
    ensures |Elsewhere(Holders(invs, category, id), self)| == |HostsWith(invs, category, id) - {self}|
  {
    if invs == [] {
    } else {
      var front, last := invs[..|invs| - 1], invs[|invs| - 1];
      ElsewhereCountsHosts(front, category, id, self);
      HostsOfFront(invs, category, id);
      if Holds(last, category, id) {
        ElsewhereAppend(Holders(front, category, id), HolderOf(last, category, id), self);
        NewHost(invs, category, id);
        OneMoreHost(HostsWith(front, category, id), last.hostID, self);
      } else {
        assert HostsWith(invs, category, id) == HostsWith(front, category, id);
      }
    }
  }

  lemma {:induction false} ElsewhereListsHosts(invs: seq<Inventory>, category: Category, id: string, self: string,
                                               host: string)
    ensures (exists h :: h in Elsewhere(Holders(invs, category, id), self) && h.host == host)
            <==> host in HostsWith(invs, category, id) - {self}
  {
    if invs == [] {
    } else {
      var front, last := invs[..|invs| - 1], invs[|invs| - 1];
      ElsewhereListsHosts(front, category, id, self, host);
      HostsOfFront(invs, category, id);
      if Holds(last, category, id) {
        var before := Elsewhere(Holders(front, category, id), self);
        ElsewhereAppend(Holders(front, category, id), HolderOf(last, category, id), self);
        if last.hostID == host != self {
          assert (before + [HolderOf(last, category, id)])[|before|].host == host;
        }
        assert forall h :: h in Elsewhere(Holders(invs, category, id), self)
                           <==> h in before || (last.hostID != self && h == HolderOf(last, category, id));
      }
    }
  }

  // ---------------------------------------------------------------- taking the inventory out of a digest

  const FLEET_ONLY: set<Category> := {PasswordHashes, PrivateKeys}

  /** What takeInventory returns. */
  function InventoryOf(digest: map<Category, seq<string>>): map<Category, seq<string>> {
    map c | c in digest && (c in FLEET_ONLY || (c == AuthorizedKeys && digest[c] != [])) :: digest[c]
  }

  /** The inventory once all fleet-only categories but rest are moved into it. */
  ghost function Moved(digest: map<Category, seq<string>>, keys: map<Category, seq<string>>, rest: set<Category>)
      : map<Category, seq<string>> {
    keys + map c | c in digest && c in FLEET_ONLY - rest :: digest[c]
  }

  lemma MoveOne(digest: map<Category, seq<string>>, keys: map<Category, seq<string>>, rest: set<Category>, c: Category)
    requires c in rest && rest <= FLEET_ONLY
    ensures Moved(digest, keys, rest - {c})
         == if c in digest then Moved(digest, keys, rest)[c := digest[c]] else Moved(digest, keys, rest)
    ensures digest - (FLEET_ONLY - (rest - {c})) == digest - (FLEET_ONLY - rest) - {c}
  {
    OneLeft(FLEET_ONLY, rest, c);
    LeaveOne(digest, FLEET_ONLY - rest, c);
  }

  lemma OneLeft(all: set<Category>, rest: set<Category>, c: Category)
    requires c in rest && rest <= all
    ensures all - (rest - {c}) == all - rest + {c}
  {
  }

  lemma LeaveOne(digest: map<Category, seq<string>>, gone: set<Category>, c: Category)
    ensures digest - (gone + {c}) == digest - gone - {c}
  {
  }

  /** The fleet-only categories leave the digest, so they can neither drift nor be frozen into a baseline;
      authorized keys stay in it; nothing else changes, and the inventory has all three. */
  method TakeInventory(digest: map<Category, seq<string>>)
    returns (inv: map<Category, seq<string>>, left: map<Category, seq<string>>)
    ensures inv == InventoryOf(digest) && left == digest - FLEET_ONLY
    ensures forall c :: c in left <==> c in digest && c != PasswordHashes && c != PrivateKeys
    ensures forall c :: c in inv <==>
              c in digest && (c == PasswordHashes || c == PrivateKeys || (c == AuthorizedKeys && digest[c] != []))
    ensures forall c :: (c in left ==> left[c] == digest[c]) && (c in inv ==> inv[c] == digest[c])
    ensures forall c, item :: c in digest && item in digest[c] ==>
              (c in left && item in left[c]) || (c in inv && item in inv[c])
  {
    inv, left := map[], digest;
    if AuthorizedKeys in digest && |digest[AuthorizedKeys]| > 0 {
      inv := inv[AuthorizedKeys := digest[AuthorizedKeys]];
    }
    ghost var keys := inv;
    var rest := FLEET_ONLY;
    while rest != {}
      invariant rest <= FLEET_ONLY && left == digest - (FLEET_ONLY - rest)
      invariant inv == Moved(digest, keys, rest)
    {
      var c :| c in rest;
      MoveOne(digest, keys, rest, c);
      rest := rest - {c};
      if c in left {
        inv := inv[c := left[c]];
        left := left - {c};
      }
    }
  }

  // ---------------------------------------------------------------- the findings of one scan

  datatype Rule = SharedKey | SharedHash | KeyGrantsAccess | KeyCopied

  datatype Finding = Finding(rule: Rule, id: string, hostsWith: nat, accounts: seq<string>, alsoOn: seq<string>,
                             points: nat)

  /** The fleet as one scan sees it: the host scanned, its inventory, every host's inventory, host names. */
  datatype Fleet = Fleet(mine: Inventory, invs: seq<Inventory>, names: map<string, string>)

  const MAX_ALSO_ON: nat := 8

  function NameOf(names: map<string, string>, host: string): string {
    if host in names && names[host] != "" then names[host] else host
  }

  function NamesOf(holders: seq<Holder>, names: map<string, string>): (r: seq<string>)
    ensures |r| == |holders|
  {
    if holders == [] then []
      else NamesOf(holders[..|holders| - 1], names) + [NameOf(names, holders[|holders| - 1].host)]
  }

  lemma NamesAppend(holders: seq<Holder>, h: Holder, names: map<string, string>)
    ensures NamesOf(holders + [h], names) == NamesOf(holders, names) + [NameOf(names, h.host)]
  {
    assert (holders + [h])[..|holders|] == holders;
  }

  method Others(holders: seq<Holder>, self: string, names: map<string, string>) returns (out: seq<string>)
    ensures out == SortStrings(NamesOf(Elsewhere(holders, self), names))
    ensures |out| == |Elsewhere(holders, self)|
  {
    out := [];
    for n := 0 to |holders|
      invariant out == NamesOf(Elsewhere(holders[..n], self), names)
    {
      assert holders[..n + 1] == holders[..n] + [holders[n]];
      ElsewhereAppend(holders[..n], holders[n], self);
      if holders[n].host != self {
        var name := if holders[n].host in names then names[holders[n].host] else "";
        if name == "" { name := holders[n].host; }
        NamesAppend(Elsewhere(holders[..n], self), holders[n], names);
        out := out + [name];
      }
    }
    assert holders[..|holders|] == holders;
    SortStringsSorts(out);
    out := SortStrings(out);
  }

  function Clip(names: seq<string>, n: nat): seq<string> {
    if |names| > n then names[..n] else names
  }

  function AlsoOn(fleet: Fleet, category: Category, id: string): seq<string> {
    SortStrings(NamesOf(Elsewhere(Holders(fleet.invs, category, id), fleet.mine.hostID), fleet.names))
  }

  /** The findings for one credential of the scanned host, in terms of the inventories. */
  function FindingsFor(fleet: Fleet, category: Category, id: string): seq<Finding> {
    var h := HolderOf(fleet.mine, category, id);
    var keys := AlsoOn(fleet, AuthorizedKeys, id);
    match category
    case AuthorizedKeys =>
      if keys == [] then [] else [Finding(SharedKey, id, |keys| + 1, h.accounts, Clip(keys, MAX_ALSO_ON), 20)]
    case PasswordHashes =>
      var also := AlsoOn(fleet, PasswordHashes, id);
      if also == [] && |h.accounts| < 2 then []
      else [Finding(SharedHash, id, |also| + 1, h.accounts, Clip(also, MAX_ALSO_ON), 45)]
    case PrivateKeys =>
      var copies := AlsoOn(fleet, PrivateKeys, id);
      (if keys == [] then [] else
         [Finding(KeyGrantsAccess, id, |keys|, h.accounts, Clip(keys, MAX_ALSO_ON),
                  if h.state == "locked" then 25 else 55)])
      + (if copies == [] then [] else [Finding(KeyCopied, id, |copies| + 1, h.accounts, Clip(copies, MAX_ALSO_ON), 45)])
    case OtherCategory(_) => []
  }

  function Collected(fleet: Fleet, category: Category, order: seq<string>): seq<Finding> {
    if order == [] then [] else
      Collected(fleet, category, order[..|order| - 1]) + FindingsFor(fleet, category, order[|order| - 1])
  }

  /** The score of a scan before it is capped. */
  function Points(findings: seq<Finding>): nat {
    if findings == [] then 0 else Points(findings[..|findings| - 1]) + findings[|findings| - 1].points / 5
  }

  /** Looking the id up in the index finds the same hosts as searching the inventories. */
  method FindOthers(fleet: Fleet, index: ByID, category: Category, id: string) returns (also: seq<string>)
    requires Indexes(index, fleet.invs, category)
    ensures also == AlsoOn(fleet, category, id)
  {
    assert At(index, id) == Holders(fleet.invs, category, id);
    also := Others(At(index, id), fleet.mine.hostID, fleet.names);
  }

  /** The three indexes a scan builds. */
  datatype Indexes3 = Indexes3(keys: ByID, hashes: ByID, priv: ByID)

  ghost predicate IndexFleet(x: Indexes3, invs: seq<Inventory>) {
    Indexes(x.keys, invs, AuthorizedKeys) && Indexes(x.hashes, invs, PasswordHashes)
      && Indexes(x.priv, invs, PrivateKeys)
  }

  method FindPrivate(fleet: Fleet, id: string, h: Holder, x: Indexes3) returns (fs: seq<Finding>)
    requires h == HolderOf(fleet.mine, PrivateKeys, id) && IndexFleet(x, fleet.invs)
    ensures fs == FindingsFor(fleet, PrivateKeys, id)
  {
    var authorizedOn := FindOthers(fleet, x.keys, AuthorizedKeys, id);
    fs := [];
    if |authorizedOn| > 0 {
      var points := if h.state == "locked" then 25 else 55;
      fs := [Finding(KeyGrantsAccess, id, |authorizedOn|, h.accounts, Clip(authorizedOn, MAX_ALSO_ON), points)];
    }
    var copies := FindOthers(fleet, x.priv, PrivateKeys, id);
    if |copies| > 0 { fs := fs + [Finding(KeyCopied, id, |copies| + 1, h.accounts, Clip(copies, MAX_ALSO_ON), 45)]; }
  }

  method FindOne(fleet: Fleet, category: Category, id: string, h: Holder, x: Indexes3) returns (fs: seq<Finding>)
    requires h == HolderOf(fleet.mine, category, id) && IndexFleet(x, fleet.invs)
    ensures fs == FindingsFor(fleet, category, id)
  {
    fs := [];
    if category == AuthorizedKeys {
      var also := FindOthers(fleet, x.keys, AuthorizedKeys, id);
      if |also| > 0 { fs := [Finding(SharedKey, id, |also| + 1, h.accounts, Clip(also, MAX_ALSO_ON), 20)]; }
    } else if category == PasswordHashes {
      var also := FindOthers(fleet, x.hashes, PasswordHashes, id);
      if |also| > 0 || |h.accounts| >= 2 {
        fs := [Finding(SharedHash, id, |also| + 1, h.accounts, Clip(also, MAX_ALSO_ON), 45)];
      }
    } else if category == PrivateKeys {
      fs := FindPrivate(fleet, id, h, x);
    }
  }

  /** order lists what the scanned host holds in the category, each id once. */
  ghost predicate ListsHeld(order: seq<string>, mine: Inventory, category: Category, rest: set<string>) {
    && (forall id :: id in order <==> Holds(mine, category, id) && id !in rest)
    && (forall j, k :: 0 <= j < k < |order| ==> order[j] != order[k])
  }

  lemma HeldOneMore(order: seq<string>, mine: Inventory, category: Category, rest: set<string>, id: string)
    requires ListsHeld(order, mine, category, rest) && id in rest && Holds(mine, category, id)
    ensures ListsHeld(order + [id], mine, category, rest - {id})
  {
  }

  lemma CollectedOneMore(fleet: Fleet, category: Category, order: seq<string>, id: string)
    ensures Collected(fleet, category, order + [id])
            == Collected(fleet, category, order) + FindingsFor(fleet, category, id)
  {
    assert (order + [id])[..|order|] == order;
  }

  method FindInCategory(fleet: Fleet, category: Category, x: Indexes3) returns (fs: seq<Finding>, order: seq<string>)
    requires IndexFleet(x, fleet.invs)
    ensures ListsHeld(order, fleet.mine, category, {}) && fs == Collected(fleet, category, order)
  {
    var mine := GroupItems(fleet.mine.hostID, ItemsOf(fleet.mine, category));
    fs, order := [], [];
    var rest := mine.Keys;
    while rest != {}
      invariant rest <= mine.Keys
      invariant ListsHeld(order, fleet.mine, category, rest) && fs == Collected(fleet, category, order)
    {
      var id :| id in rest;
      HeldOneMore(order, fleet.mine, category, rest, id);
      CollectedOneMore(fleet, category, order, id);
      rest := rest - {id};
      var found := FindOne(fleet, category, id, mine[id], x);
      fs, order := fs + found, order + [id];
    }
  }

  method CappedScore(fs: seq<Finding>) returns (score: nat)
    ensures score == if Points(fs) > 40 then 40 else Points(fs)
  {
    score := 0;
    for n := 0 to |fs|
      invariant score == Points(fs[..n])
    {
      assert fs[..n + 1][..n] == fs[..n];
      score := score + fs[n].points / 5;
    }
    assert fs[..|fs|] == fs;
    if score > 40 { score := 40; }
  }

  /** How many of the findings are of this rule and worth so many points. */
  function Tally(fs: seq<Finding>, rule: Rule, points: nat): nat {
    |set k | 0 <= k < |fs| && fs[k].rule == rule && fs[k].points == points|
  }

  lemma TallyOneMore(fs: seq<Finding>, f: Finding, rule: Rule, points: nat)
    ensures Tally(fs + [f], rule, points)
            == Tally(fs, rule, points) + if f.rule == rule && f.points == points then 1 else 0
  {
    var before := set k | 0 <= k < |fs| && fs[k].rule == rule && fs[k].points == points;
    var now := set k | 0 <= k < |fs + [f]| && (fs + [f])[k].rule == rule && (fs + [f])[k].points == points;
    forall k
      ensures k in now <==> k in before || (k == |fs| && f.rule == rule && f.points == points)
    {
      if 0 <= k < |fs| { assert (fs + [f])[k] == fs[k]; }
    }
    if f.rule == rule && f.points == points {
      assert now == before + {|fs|};
    } else {
      assert now == before;
    }
  }

  predicate Scored(f: Finding) {
    match f.rule
    case SharedKey => f.points == 20
    case SharedHash => f.points == 45
    case KeyCopied => f.points == 45
    case KeyGrantsAccess => f.points == 25 || f.points == 55
  }

  /** A fifth of the points of each finding. */
  function ByRule(fs: seq<Finding>): nat {
    4 * Tally(fs, SharedKey, 20) + 9 * (Tally(fs, SharedHash, 45) + Tally(fs, KeyCopied, 45))
    + 5 * Tally(fs, KeyGrantsAccess, 25) + 11 * Tally(fs, KeyGrantsAccess, 55)
  }

  lemma ByRuleOneMore(fs: seq<Finding>, f: Finding)
    requires Scored(f)
    ensures ByRule(fs + [f]) == ByRule(fs) + f.points / 5
  {
    TallyOneMore(fs, f, SharedKey, 20);
    TallyOneMore(fs, f, SharedHash, 45);
    TallyOneMore(fs, f, KeyCopied, 45);
    TallyOneMore(fs, f, KeyGrantsAccess, 25);
    TallyOneMore(fs, f, KeyGrantsAccess, 55);
  }

  lemma {:induction false} PointsByRule(fs: seq<Finding>)
    requires forall k :: 0 <= k < |fs| ==> Scored(fs[k])
    ensures Points(fs) == ByRule(fs)
  {
    if fs == [] {
    } else {
      var front, last := fs[..|fs| - 1], fs[|fs| - 1];
      PointsByRule(front);
      ByRuleOneMore(front, last);
      assert fs == front + [last];
    }
  }

  lemma {:induction false} CollectedScored(fleet: Fleet, category: Category, order: seq<string>)
    ensures forall k :: 0 <= k < |Collected(fleet, category, order)| ==> Scored(Collected(fleet, category, order)[k])
  {
    if order == [] {
    } else {
      CollectedScored(fleet, category, order[..|order| - 1]);
      FindingsScored(fleet, category, order[|order| - 1]);
    }
  }

  lemma FindingsScored(fleet: Fleet, category: Category, id: string)
    ensures forall k :: 0 <= k < |FindingsFor(fleet, category, id)| ==> Scored(FindingsFor(fleet, category, id)[k])
  {
    var fs := FindingsFor(fleet, category, id);
    forall k | 0 <= k < |fs|
      ensures Scored(fs[k])
    {
      assert fs[k].rule.SharedKey? ==> fs[k].points == 20;
      assert fs[k].rule.SharedHash? || fs[k].rule.KeyCopied? ==> fs[k].points == 45;
    }
  }

  /** applyCredentialReuse: every credential of the host in the three categories, each judged once, and
      the capped score. */
  method ApplyCredentialReuse(fleet: Fleet)
      returns (fs: seq<Finding>, score: nat, orders: (seq<string>, seq<string>, seq<string>))
    ensures ListsHeld(orders.0, fleet.mine, AuthorizedKeys, {}) && ListsHeld(orders.1, fleet.mine, PasswordHashes, {})
    ensures ListsHeld(orders.2, fleet.mine, PrivateKeys, {})
    ensures fs == Collected(fleet, AuthorizedKeys, orders.0) + Collected(fleet, PasswordHashes, orders.1)
                  + Collected(fleet, PrivateKeys, orders.2)
    ensures score == if ByRule(fs) > 40 then 40 else ByRule(fs)
  {
    var keys := Index(fleet.invs, AuthorizedKeys);
    var hashes := Index(fleet.invs, PasswordHashes);
    var priv := Index(fleet.invs, PrivateKeys);
    var x := Indexes3(keys, hashes, priv);
    var f0, o0 := FindInCategory(fleet, AuthorizedKeys, x);
    var f1, o1 := FindInCategory(fleet, PasswordHashes, x);
    var f2, o2 := FindInCategory(fleet, PrivateKeys, x);
    fs, orders := f0 + f1 + f2, (o0, o1, o2);
    CollectedScored(fleet, AuthorizedKeys, o0);
    CollectedScored(fleet, PasswordHashes, o1);
    CollectedScored(fleet, PrivateKeys, o2);
    PointsByRule(fs);
    score := CappedScore(fs);
  }

  // ---------------------------------------------------------------- what the findings mean

  lemma NamesOfSame(holders: seq<Holder>, names: map<string, string>)
    ensures |SortStrings(NamesOf(holders, names))| == |holders|
  {
    SortStringsSorts(NamesOf(holders, names));
  }

  /** Whoever holds the credential, including the scanned host itself or not. */
  lemma AlsoOnCountsHosts(fleet: Fleet, category: Category, id: string)
    requires OnePerHost(fleet.invs)
    ensures |AlsoOn(fleet, category, id)| == |HostsWith(fleet.invs, category, id) - {fleet.mine.hostID}|
  {
    NamesOfSame(Elsewhere(Holders(fleet.invs, category, id), fleet.mine.hostID), fleet.names);
    ElsewhereCountsHosts(fleet.invs, category, id, fleet.mine.hostID);
  }

  lemma HostsWithSelf(fleet: Fleet, category: Category, id: string)
    requires fleet.mine in fleet.invs && Holds(fleet.mine, category, id)
    ensures fleet.mine.hostID in HostsWith(fleet.invs, category, id)
    ensures |HostsWith(fleet.invs, category, id)| == |HostsWith(fleet.invs, category, id) - {fleet.mine.hostID}| + 1
  {
    var k :| 0 <= k < |fleet.invs| && fleet.invs[k] == fleet.mine;
    var hosts := HostsWith(fleet.invs, category, id);
    assert fleet.invs[k].hostID in hosts;
    assert hosts == (hosts - {fleet.mine.hostID}) + {fleet.mine.hostID};
  }

  /** The name a host goes by: its own, or its id if it has none. */
  ghost predicate Called(names: map<string, string>, host: string, name: string) {
    if host in names && names[host] != "" then name == names[host] else name == host
  }

  lemma {:induction false} NamesOfMembers(holders: seq<Holder>, names: map<string, string>, name: string)
    ensures name in NamesOf(holders, names) <==> exists h :: h in holders && Called(names, h.host, name)
  {
    if holders == [] {
    } else {
      var front, last := holders[..|holders| - 1], holders[|holders| - 1];
      NamesOfMembers(front, names, name);
      assert holders == front + [last];
    }
  }

  /** The names listed are those of the other hosts that hold id, in ascending order. */
  lemma AlsoOnNamesHosts(fleet: Fleet, category: Category, id: string, name: string)
    requires OnePerHost(fleet.invs)
    ensures Ascending(AlsoOn(fleet, category, id))
    ensures name in AlsoOn(fleet, category, id) <==>
            exists host :: host in HostsWith(fleet.invs, category, id) - {fleet.mine.hostID}
                           && Called(fleet.names, host, name)
  {
    var holders := Elsewhere(Holders(fleet.invs, category, id), fleet.mine.hostID);
    var list := NamesOf(holders, fleet.names);
    SortStringsSorts(list);
    NamesOfMembers(holders, fleet.names, name);
    assert name in SortStrings(list) <==> name in multiset(SortStrings(list));
    assert name in list <==> name in multiset(list);
    if h :| h in holders && Called(fleet.names, h.host, name) {
      ElsewhereListsHosts(fleet.invs, category, id, fleet.mine.hostID, h.host);
    }
    if host :| host in HostsWith(fleet.invs, category, id) - {fleet.mine.hostID} && Called(fleet.names, host, name) {
      ElsewhereListsHosts(fleet.invs, category, id, fleet.mine.hostID, host);
      assert exists h :: h in holders && h.host == host;
    }
  }

  /** The category whose holders a finding lists. */
  function ListedCategory(f: Finding, category: Category): Category {
    if f.rule == KeyGrantsAccess then AuthorizedKeys else category
  }

  /** The rules that apply to a credential, and what each is worth. */
  ghost predicate WorthItsRule(f: Finding, category: Category, state: string) {
    match f.rule
    case SharedKey => category == AuthorizedKeys && f.points == 20
    case SharedHash => category == PasswordHashes && f.points == 45
    case KeyGrantsAccess => category == PrivateKeys && f.points == if state == "locked" then 25 else 55
    case KeyCopied => category == PrivateKeys && f.points == 45
  }

  /** What the finding's own fields say, in terms of the names listed. */
  lemma FindingFields(fleet: Fleet, category: Category, id: string, f: Finding)
    requires f in FindingsFor(fleet, category, id)
    ensures f.id == id && f.accounts == Accounts(ItemsOf(fleet.mine, category), id)
    ensures WorthItsRule(f, category, FirstState(ItemsOf(fleet.mine, category), id))
    ensures var also := AlsoOn(fleet, ListedCategory(f, category), id);
            && f.alsoOn <= also && |f.alsoOn| == (if |also| > 8 then 8 else |also|)
            && f.hostsWith == if f.rule == KeyGrantsAccess then |also| else |also| + 1
  {
  }

  /** Each rule is applied to a credential at most once. */
  lemma RulesApplyOnce(fleet: Fleet, category: Category, id: string, j: nat, k: nat)
    requires j < k < |FindingsFor(fleet, category, id)|
    ensures FindingsFor(fleet, category, id)[j].rule != FindingsFor(fleet, category, id)[k].rule
  {
  }

  /** With one inventory per host, hosts_with in a finding on a shared authorized key, password hash or
      copied private key is exactly the number of hosts holding that id; for a private key that grants
      access it is the number of other hosts that authorize it. */
  lemma HostsWithIsExact(fleet: Fleet, category: Category, id: string, f: Finding)
    requires OnePerHost(fleet.invs) && fleet.mine in fleet.invs && Holds(fleet.mine, category, id)
    requires f in FindingsFor(fleet, category, id)
    ensures f.id == id && f.accounts == Accounts(ItemsOf(fleet.mine, category), id)
    ensures f.hostsWith ==
            if f.rule == KeyGrantsAccess then |HostsWith(fleet.invs, AuthorizedKeys, id) - {fleet.mine.hostID}|
            else |HostsWith(fleet.invs, category, id)|
  {
    FindingFields(fleet, category, id, f);
    HostsWithSelf(fleet, category, id);
    AlsoOnCountsHosts(fleet, category, id);
    AlsoOnCountsHosts(fleet, AuthorizedKeys, id);
  }

  predicate Reports(fs: seq<Finding>, rule: Rule) {
    exists f :: f in fs && f.rule == rule
  }

  /** A credential of the host is reported as shared exactly when two hosts hold it (or, for a password
      hash, two accounts here), and a private key as granting access exactly when another host
      authorizes it. */
  lemma ReportedExactlyWhen(fleet: Fleet, id: string)
    requires OnePerHost(fleet.invs) && fleet.mine in fleet.invs
    ensures Holds(fleet.mine, AuthorizedKeys, id) ==>
              (Reports(FindingsFor(fleet, AuthorizedKeys, id), SharedKey) <==>
               |HostsWith(fleet.invs, AuthorizedKeys, id)| >= 2)
    ensures Holds(fleet.mine, PasswordHashes, id) ==>
              (Reports(FindingsFor(fleet, PasswordHashes, id), SharedHash) <==>
               |HostsWith(fleet.invs, PasswordHashes, id)| >= 2
               || |HolderOf(fleet.mine, PasswordHashes, id).accounts| >= 2)
    ensures Holds(fleet.mine, PrivateKeys, id) ==>
              (Reports(FindingsFor(fleet, PrivateKeys, id), KeyGrantsAccess)
               <==> HostsWith(fleet.invs, AuthorizedKeys, id) - {fleet.mine.hostID} != {})
              && (Reports(FindingsFor(fleet, PrivateKeys, id), KeyCopied) <==>
                  |HostsWith(fleet.invs, PrivateKeys, id)| >= 2)
  {
    if Holds(fleet.mine, AuthorizedKeys, id) { SharedKeyReported(fleet, id); }
    if Holds(fleet.mine, PasswordHashes, id) { SharedHashReported(fleet, id); }
    if Holds(fleet.mine, PrivateKeys, id) { PrivateKeyReported(fleet, id); }
  }

  lemma SharedKeyReported(fleet: Fleet, id: string)
    requires OnePerHost(fleet.invs) && fleet.mine in fleet.invs && Holds(fleet.mine, AuthorizedKeys, id)
    ensures Reports(FindingsFor(fleet, AuthorizedKeys, id), SharedKey) <==>
              |HostsWith(fleet.invs, AuthorizedKeys, id)| >= 2
  {
    HostsWithSelf(fleet, AuthorizedKeys, id);
    AlsoOnCountsHosts(fleet, AuthorizedKeys, id);
    var fs := FindingsFor(fleet, AuthorizedKeys, id);
    if fs != [] { assert fs[0] in fs; }
  }

  lemma SharedHashReported(fleet: Fleet, id: string)
    requires OnePerHost(fleet.invs) && fleet.mine in fleet.invs && Holds(fleet.mine, PasswordHashes, id)
    ensures Reports(FindingsFor(fleet, PasswordHashes, id), SharedHash) <==>
            |HostsWith(fleet.invs, PasswordHashes, id)| >= 2
            || |HolderOf(fleet.mine, PasswordHashes, id).accounts| >= 2
  {
    HostsWithSelf(fleet, PasswordHashes, id);
    AlsoOnCountsHosts(fleet, PasswordHashes, id);
    var fs := FindingsFor(fleet, PasswordHashes, id);
    if fs != [] { assert fs[0] in fs; }
  }

  lemma PrivateKeyFindings(fleet: Fleet, id: string)
    ensures Reports(FindingsFor(fleet, PrivateKeys, id), KeyGrantsAccess) <==> |AlsoOn(fleet, AuthorizedKeys, id)| > 0
    ensures Reports(FindingsFor(fleet, PrivateKeys, id), KeyCopied) <==> |AlsoOn(fleet, PrivateKeys, id)| > 0
  {
    var fs := FindingsFor(fleet, PrivateKeys, id);
    if |fs| > 0 { assert fs[0] in fs; }
    if |fs| > 1 { assert fs[1] in fs; }
  }

  lemma PrivateKeyReported(fleet: Fleet, id: string)
    requires OnePerHost(fleet.invs) && fleet.mine in fleet.invs && Holds(fleet.mine, PrivateKeys, id)
    ensures Reports(FindingsFor(fleet, PrivateKeys, id), KeyGrantsAccess)
            <==> HostsWith(fleet.invs, AuthorizedKeys, id) - {fleet.mine.hostID} != {}
    ensures Reports(FindingsFor(fleet, PrivateKeys, id), KeyCopied) <==> |HostsWith(fleet.invs, PrivateKeys, id)| >= 2
  {
    PrivateKeyFindings(fleet, id);
    HostsWithSelf(fleet, PrivateKeys, id);
    AlsoOnCountsHosts(fleet, PrivateKeys, id);
    AlsoOnCountsHosts(fleet, AuthorizedKeys, id);
  }

  /** host is among the holders a scan of self lists for id, before names are clipped. */
  ghost predicate ListsHost(invs: seq<Inventory>, self: Inventory, category: Category, id: string, host: string) {
    Holds(self, category, id) && exists h :: h in Elsewhere(Holders(invs, category, id), self.hostID) && h.host == host
  }

  lemma ListedExactlyWhen(invs: seq<Inventory>, a: Inventory, b: Inventory, category: Category, id: string)
    requires OnePerHost(invs) && a in invs && b in invs && a.hostID != b.hostID
    ensures ListsHost(invs, a, category, id, b.hostID) <==> Holds(a, category, id) && Holds(b, category, id)
  {
    ElsewhereListsHosts(invs, category, id, a.hostID, b.hostID);
    var j :| 0 <= j < |invs| && invs[j] == b;
    assert Holds(b, category, id) ==> invs[j].hostID in HostsWith(invs, category, id);
    if b.hostID in HostsWith(invs, category, id) {
      var k :| 0 <= k < |invs| && Holds(invs[k], category, id) && invs[k].hostID == b.hostID;
      assert k == j;
    }
  }

  /** Sharing is symmetric: on the same inventories, a scan of one host lists another for a credential
      exactly when a scan of the other would list it. */
  lemma SharingIsSymmetric(invs: seq<Inventory>, a: Inventory, b: Inventory, category: Category, id: string)
    requires OnePerHost(invs) && a in invs && b in invs && a.hostID != b.hostID
    ensures ListsHost(invs, a, category, id, b.hostID) <==> ListsHost(invs, b, category, id, a.hostID)
  {
    ListedExactlyWhen(invs, a, b, category, id);
    ListedExactlyWhen(invs, b, a, category, id);
  }
}
