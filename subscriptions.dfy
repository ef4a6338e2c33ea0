// transform.py, get_subscription_data: every user's subscription entries, copied
// into dicts tagged with the user's id, concatenated in user order.

module Subscriptions {
  import opened Results
  import opened Json

  const NotIterable := "TypeError: object is not iterable"
  const BadLength := "ValueError: dictionary update sequence element has the wrong length; 2 is required"

  /** `for item in v`: list elements, dict keys, or one-character strings. */
  function ItemsOf(v: Value): (items: Result<seq<Value>>)
    ensures v.Arr? ==> items == Ok(v.items)
    ensures items.Ok? <==> v.Arr? || v.Obj? || v.Str?
    ensures v.Obj? ==> items.Ok? && |items.value| == |v.fields|
    ensures v.Obj? ==> forall k :: 0 <= k < |v.fields| ==> items.value[k] == Str(Keys(v.fields)[k])
    ensures v.Str? ==> items.Ok? && |items.value| == |v.s|
    ensures v.Str? ==> forall k :: 0 <= k < |v.s| ==> items.value[k].Str? && items.value[k].s == [v.s[k]]
  {
    match v
    case Arr(items) => Ok(items)
    case Obj(fields) => Ok(seq(|fields|, k requires 0 <= k < |fields| => Str(fields[k].0)))
    case Str(s) => Ok(seq(|s|, k requires 0 <= k < |s| => Str([s[k]])))
    case _ => Err(NotIterable)
  }

  /** One element of a list given to `dict(...)`: a pair whose first part is the key. */
  function PairOf(e: Value): Result<(string, Value)>
  {
    match e
    case Arr(items) =>
      if |items| != 2 then Err(BadLength)
      else if items[0].Str? then Ok((items[0].s, items[1]))
      else Err("TypeError: non-string key")
    case Str(s) => if |s| != 2 then Err(BadLength) else Ok(([s[0]], Str([s[1]])))
    case Obj(fields) => if |fields| != 2 then Err(BadLength) else Ok((fields[0].0, Str(fields[1].0)))
    case _ => Err(NotIterable)
  }

  /** `dict(pairs)`: later pairs overwrite earlier ones with the same key. */
  function DictOfPairs(acc: Record, pairs: seq<Value>): Result<Record>
    decreases |pairs|
  {
    if pairs == [] then Ok(acc)
    else match PairOf(pairs[0])
      case Err(m) => Err(m)
      case Ok(p) => DictOfPairs(Set(acc, p.0, p.1), pairs[1..])
  }

  /** `dict(item)`: a copy of a dict, or the dict built from an iterable of pairs. */
  function DictOf(item: Value): (d: Result<Record>)
    ensures item.Obj? ==> d == Ok(item.fields)
  {
    match item
    case Obj(fields) => Ok(fields)
    case Arr(pairs) => DictOfPairs([], pairs)
    case Str(s) => if s == "" then Ok([]) else Err(BadLength)
    case _ => Err(NotIterable)
  }

  /** `[dict(item, **{'user_id': user_id}) for item in items]` */
  function Tagged(items: seq<Value>, userId: Value): (entries: Result<seq<Record>>)
    ensures entries.Ok? ==> |entries.value| == |items|
    decreases |items|
  {
    if items == [] then Ok([])
    else match DictOf(items[0])
      case Err(m) => Err(m)
      case Ok(d) =>
        match Tagged(items[1..], userId)
        case Err(m) => Err(m)
        case Ok(rest) => Ok([Set(d, "user_id", userId)] + rest)
  }

  /** The entries one user contributes: none for an absent or falsy `subscription`. */
  function EntriesOf(user: Record): Result<seq<Record>>
  {
    var subscriptions := Get(user, "subscription");
    if !Truthy(subscriptions) then Ok([])
    else match ItemsOf(subscriptions)
      case Err(m) => Err(m)
      case Ok(items) => Tagged(items, Get(user, "id"))
  }

  /** How many entries a user's `subscription` holds: 0 when it is absent or falsy. */
  function EntryCount(user: Record): nat
  {
    var subscriptions := Get(user, "subscription");
    if !Truthy(subscriptions) then 0
    else match ItemsOf(subscriptions)
      case Err(_) => 0
      case Ok(items) => |items|
  }

  function TotalCount(users: seq<Record>): nat
  {
    if users == [] then 0 else EntryCount(users[0]) + TotalCount(users[1..])
  }

  /** Every user's entries, computed one user at a time. */
  function PerUser(users: seq<Record>): (parts: seq<Result<seq<Record>>>)
    ensures |parts| == |users|
    ensures forall k :: 0 <= k < |users| ==> parts[k] == EntriesOf(users[k])
  {
    seq(|users|, k requires 0 <= k < |users| => EntriesOf(users[k]))
  }

  /** `extend` over the parts in order; the first exception ends it. */
  function Concat(parts: seq<Result<seq<Record>>>): Result<seq<Record>>
  {
    if parts == [] then Ok([])
    else match parts[0]
      case Err(m) => Err(m)
      case Ok(entries) =>
        match Concat(parts[1..])
        case Err(m) => Err(m)
        case Ok(rest) => Ok(entries + rest)
  }

  /** The whole list, user by user. */
  function AllEntries(users: seq<Record>): Result<seq<Record>>
  {
    Concat(PerUser(users))
  }

  /**
   * Concatenating part lists: after a prefix without an exception, the suffix's
   * entries (or its exception) follow the prefix's entries.
   */
  lemma {:induction false} ConcatAppend(parts: seq<Result<seq<Record>>>, more: seq<Result<seq<Record>>>)
    requires Concat(parts).Ok?
    ensures Concat(parts + more) ==
      match Concat(more)
      case Err(m) => Err(m)
      case Ok(rest) => Ok(Concat(parts).value + rest)
  {
    if parts == [] {
      assert parts + more == more;
      if Concat(more).Ok? {
        assert [] + Concat(more).value == Concat(more).value;
      }
    } else {
      assert (parts + more)[0] == parts[0] && (parts + more)[1..] == parts[1..] + more;
      ConcatAppend(parts[1..], more);
      if Concat(more).Ok? {
        var e, c1, rest := parts[0].value, Concat(parts[1..]).value, Concat(more).value;
        assert e + (c1 + rest) == (e + c1) + rest;
      }
    }
  }

  lemma PerUserAppend(users: seq<Record>, more: seq<Record>)
    ensures PerUser(users + more) == PerUser(users) + PerUser(more)
  {
    var all, parts := PerUser(users + more), PerUser(users) + PerUser(more);
    forall k | 0 <= k < |all|
      ensures all[k] == parts[k]
    {
      if k < |users| {
        assert (users + more)[k] == users[k];
      } else {
        assert (users + more)[k] == more[k - |users|];
      }
    }
  }

  /** Flattening a concatenation of user lists: the second list's entries follow the first's. */
  lemma AllEntriesAppend(users: seq<Record>, more: seq<Record>)
    requires AllEntries(users).Ok?
    ensures AllEntries(users + more) ==
      match AllEntries(more)
      case Err(m) => Err(m)
      case Ok(rest) => Ok(AllEntries(users).value + rest)
  {
    PerUserAppend(users, more);
    ConcatAppend(PerUser(users), PerUser(more));
  }

  /** A one-user list flattens to that user's entries. */
  lemma AllEntriesSingle(user: Record)
    ensures AllEntries([user]) == EntriesOf(user)
  {
    var parts := [EntriesOf(user)];
    assert PerUser([user]) == parts;
    assert parts[0] == EntriesOf(user) && parts[1..] == [];
    assert Concat(parts[1..]) == Ok([]);
    if EntriesOf(user).Ok? {
      assert EntriesOf(user).value + [] == EntriesOf(user).value;
      assert Concat(parts) == Ok(EntriesOf(user).value + []);
    } else {
      assert Concat(parts) == Err(EntriesOf(user).msg);
    }
  }

  /** `get_subscription_data` */
  method GetSubscriptionData(users: seq<Record>) returns (res: Result<seq<Record>>)
    ensures res == AllEntries(users)
  {
    var all: seq<Record> := [];
    var i := 0;
    while i < |users|
      invariant 0 <= i <= |users|
      invariant AllEntries(users[..i]) == Ok(all)
    {
      assert users[..i + 1] == users[..i] + [users[i]];
      AllEntriesAppend(users[..i], [users[i]]);
      AllEntriesSingle(users[i]);
      var user := users[i];
      var userId := Get(user, "id");
      var subscriptions := Get(user, "subscription");
      if Truthy(subscriptions) {
        var items := ItemsOf(subscriptions);
        var entries := if items.Err? then Err(items.msg) else Tagged(items.value, userId);
        assert entries == EntriesOf(user);
        if entries.Err? {
          assert users == users[..i] + users[i..];
          AllEntriesAppend(users[..i], users[i..]);
          assert PerUser(users[i..])[0] == entries;
          return Err(entries.msg);
        }
        all := all + entries.value;
      } else {
        assert all + [] == all;
      }
      i := i + 1;
    }
    assert users[..i] == users;
    return Ok(all);
  }

  /** Each entry is its item as a dict with `user_id` set to the parent's id, in item order. */
  lemma {:induction false} TaggedEntries(items: seq<Value>, userId: Value)
    requires Tagged(items, userId).Ok?
    ensures var entries := Tagged(items, userId).value;
      forall k :: 0 <= k < |items| ==>
        DictOf(items[k]).Ok? && entries[k] == Set(DictOf(items[k]).value, "user_id", userId)
    decreases |items|
  {
    if items != [] {
      var d := DictOf(items[0]);
      var tail := Tagged(items[1..], userId);
      assert d.Ok? && tail.Ok?;
      var entries := Tagged(items, userId).value;
      assert entries == [Set(d.value, "user_id", userId)] + tail.value;
      TaggedEntries(items[1..], userId);
      forall k | 0 < k < |items|
        ensures DictOf(items[k]).Ok? && entries[k] == Set(DictOf(items[k]).value, "user_id", userId)
      {
        assert items[1..][k - 1] == items[k] && entries[k] == tail.value[k - 1];
      }
    }
  }

  /** A tagged entry: `user_id` is the parent's id; every other key keeps the dict's value. */
  lemma TaggedEntry(d: Record, userId: Value, key: string)
    ensures Get(Set(d, "user_id", userId), "user_id") == userId && HasKey(Set(d, "user_id", userId), "user_id")
    ensures key != "user_id" ==> Get(Set(d, "user_id", userId), key) == Get(d, key)
  {
    GetSet(d, "user_id", userId);
    HasKeySet(d, "user_id", userId, "user_id");
    if key != "user_id" {
      GetSetOther(d, "user_id", userId, key);
    }
  }

  /** A user contributes one entry per item, each carrying `user_id` = the user's id. */
  lemma EntriesTagged(user: Record)
    requires EntriesOf(user).Ok?
    ensures var entries := EntriesOf(user).value;
      |entries| == EntryCount(user) &&
      forall k :: 0 <= k < |entries| ==>
        Get(entries[k], "user_id") == Get(user, "id") && HasKey(entries[k], "user_id")
  {
    var subscriptions := Get(user, "subscription");
    if Truthy(subscriptions) {
      var items := ItemsOf(subscriptions).value;
      var entries := EntriesOf(user).value;
      assert entries == Tagged(items, Get(user, "id")).value;
      TaggedEntries(items, Get(user, "id"));
      forall k | 0 <= k < |entries|
        ensures Get(entries[k], "user_id") == Get(user, "id") && HasKey(entries[k], "user_id")
      {
        TaggedEntry(DictOf(items[k]).value, Get(user, "id"), "user_id");
      }
    }
  }

  /** A dict item's other keys keep their values in its entry, whatever the item held under `user_id`. */
  lemma EntriesKeepFields(user: Record, k: nat, key: string)
    requires EntriesOf(user).Ok? && Get(user, "subscription").Arr?
    requires k < |Get(user, "subscription").items| && Get(user, "subscription").items[k].Obj?
    requires key != "user_id"
    ensures k < |EntriesOf(user).value|
    ensures Get(EntriesOf(user).value[k], key) == Get(Get(user, "subscription").items[k].fields, key)
  {
    var items := Get(user, "subscription").items;
    assert Truthy(Get(user, "subscription"));
    assert EntriesOf(user) == Tagged(items, Get(user, "id"));
    TaggedEntries(items, Get(user, "id"));
    TaggedEntry(items[k].fields, Get(user, "id"), key);
  }

  /** The output holds as many entries as all the users' subscription lists together. */
  lemma {:induction false} AllEntriesCount(users: seq<Record>)
    requires AllEntries(users).Ok?
    ensures |AllEntries(users).value| == TotalCount(users)
  {
    if users != [] {
      assert PerUser(users)[0] == EntriesOf(users[0]) && PerUser(users)[1..] == PerUser(users[1..]);
      AllEntriesCount(users[1..]);
      EntriesTagged(users[0]);
    }
  }

  /** A user without subscriptions contributes nothing, wherever it stands. */
  lemma NoSubscriptionNoEntries(users: seq<Record>, user: Record, more: seq<Record>)
    requires !Truthy(Get(user, "subscription")) && AllEntries(users).Ok?
    ensures AllEntries(users + [user] + more) == AllEntries(users + more)
  {
    AllEntriesAppend(users, [user] + more);
    AllEntriesAppend(users, more);
    assert PerUser([user] + more) == [Ok([])] + PerUser(more);
    assert users + [user] + more == users + ([user] + more);
    if AllEntries(more).Ok? {
      assert [] + AllEntries(more).value == AllEntries(more).value;
    }
  }
}
