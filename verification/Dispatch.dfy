/** Grouping by key into a Map that remembers insertion order, and dispatch of one message per
    group in batches. The property checkers group by account, the access notifications by
    recipient address, the retrieval upload by hotel. */
module Dispatch {
  import opened Basics
  import opened Text

  // ---------------------------------------------------------------- grouping

  /** An ECMAScript Map: its keys in insertion order and their values. */
  datatype Groups<K(==), V> = Groups(keys: seq<K>, values: map<K, seq<V>>)

  /** The distinct keys in order of first appearance. */
  function FirstSeen<K(==, !new), V>(pairs: seq<(K, V)>): (keys: seq<K>)
    ensures forall k :: k in keys <==> exists i :: 0 <= i < |pairs| && pairs[i].0 == k
  {
    if pairs == [] then []
    else
      var init, last := pairs[..|pairs| - 1], pairs[|pairs| - 1];
      assert pairs == init + [last];
      assert forall i :: 0 <= i < |init| ==> init[i] == pairs[i];
      var before := FirstSeen(init);
      if last.0 in before then before else before + [last.0]
  }

  /** The values of one key, in order. */
  function ValuesOf<K(==, !new), V>(pairs: seq<(K, V)>, key: K): seq<V> {
    if pairs == [] then []
    else
      ValuesOf(pairs[..|pairs| - 1], key)
      + if pairs[|pairs| - 1].0 == key then [pairs[|pairs| - 1].1] else []
  }

  lemma {:induction false} FirstSeenDistinct<K(!new), V>(pairs: seq<(K, V)>)
    ensures Distinct(FirstSeen(pairs))
  {
    if pairs != [] {
      FirstSeenDistinct(pairs[..|pairs| - 1]);
    }
  }

  /** A key stands before another exactly when it was seen before the other was. */
  lemma {:induction false} FirstSeenPrefix<K(!new), V>(pairs: seq<(K, V)>, n: nat)
    requires n <= |pairs|
    ensures FirstSeen(pairs[..n]) <= FirstSeen(pairs)
  {
    if n < |pairs| {
      FirstSeenPrefix(pairs[..|pairs| - 1], n);
      assert pairs[..|pairs| - 1][..n] == pairs[..n];
    } else {
      assert pairs[..n] == pairs;
    }
  }

  function TotalSize<K(==, !new), V>(pairs: seq<(K, V)>, keys: seq<K>): nat {
    if keys == [] then 0 else TotalSize(pairs, keys[..|keys| - 1]) + |ValuesOf(pairs, keys[|keys| - 1])|
  }

  lemma {:induction false} TotalSizeStep<K(!new), V>(pairs: seq<(K, V)>, keys: seq<K>)
    requires pairs != [] && Distinct(keys)
    ensures
      var init, last := pairs[..|pairs| - 1], pairs[|pairs| - 1];
      TotalSize(pairs, keys) == TotalSize(init, keys) + if last.0 in keys then 1 else 0
  {
    if keys != [] {
      var rest := keys[..|keys| - 1];
      TotalSizeStep(pairs, rest);
      assert keys == rest + [keys[|keys| - 1]];
    }
  }

  lemma {:induction false} TotalSizeUnseen<K(!new), V>(pairs: seq<(K, V)>, key: K)
    requires key !in FirstSeen(pairs)
    ensures ValuesOf(pairs, key) == []
  {
    if pairs != [] {
      TotalSizeUnseen(pairs[..|pairs| - 1], key);
    }
  }

  /** No pair is lost or duplicated: the group sizes add up to the number of pairs. */
  lemma {:induction false} SizesAddUp<K(!new), V>(pairs: seq<(K, V)>)
    ensures TotalSize(pairs, FirstSeen(pairs)) == |pairs|
  {
    if pairs != [] {
      var init, last := pairs[..|pairs| - 1], pairs[|pairs| - 1];
      SizesAddUp(init);
      FirstSeenDistinct(init);
      var before, keys := FirstSeen(init), FirstSeen(pairs);
      FirstSeenDistinct(pairs);
      TotalSizeStep(pairs, keys);
      if last.0 !in before {
        assert keys[..|keys| - 1] == before;
        TotalSizeUnseen(init, last.0);
      }
    }
  }

  /** Every group is the subsequence of the input with its key: element `i` of the input is element
      number (earlier pairs with the same key) of its group. */
  lemma {:induction false} GroupIsSubsequence<K(!new), V>(pairs: seq<(K, V)>, i: nat)
    requires i < |pairs|
    ensures
      var (key, value) := pairs[i];
      var place := |ValuesOf(pairs[..i], key)|;
      key in FirstSeen(pairs) && place < |ValuesOf(pairs, key)| && ValuesOf(pairs, key)[place] == value
  {
    var init := pairs[..|pairs| - 1];
    if i < |pairs| - 1 {
      GroupIsSubsequence(init, i);
      assert init[..i] == pairs[..i];
    }
  }

  lemma NoPairs<K(!new), V>()
    ensures FirstSeen<K, V>([]) == []
  {
  }

  /** What one more pair does to the keys and to each group. */
  lemma GroupingStep<K(!new), V>(pairs: seq<(K, V)>, n: nat)
    requires n < |pairs|
    ensures
      var (key, value) := pairs[n];
      var before := FirstSeen(pairs[..n]);
      && FirstSeen(pairs[..n + 1]) == (if key in before then before else before + [key])
      && (forall k :: ValuesOf(pairs[..n + 1], k) == ValuesOf(pairs[..n], k) + if k == key then [value] else [])
      && (key !in before ==> ValuesOf(pairs[..n], key) == [])
  {
    assert pairs[..n + 1][..n] == pairs[..n];
    if pairs[n].0 !in FirstSeen(pairs[..n]) {
      TotalSizeUnseen(pairs[..n], pairs[n].0);
    }
  }

  /** `groups.get(key) ?? []`, push, `groups.set(key, …)` over all pairs. */
  method GroupPairs<K(==, !new), V>(pairs: seq<(K, V)>) returns (groups: Groups<K, V>)
    ensures groups.keys == FirstSeen(pairs)
    ensures groups.values.Keys == set k | k in groups.keys
    ensures forall k :: k in groups.keys ==> groups.values[k] == ValuesOf(pairs, k)
  {
    hide FirstSeen, ValuesOf;
    groups := Groups([], map[]);
    NoPairs<K, V>();
    for n := 0 to |pairs|
      invariant groups.keys == FirstSeen(pairs[..n])
      invariant groups.values.Keys == set k | k in groups.keys
      invariant forall k :: k in groups.keys ==> groups.values[k] == ValuesOf(pairs[..n], k)
    {
      var (key, value) := pairs[n];
      GroupingStep(pairs, n);
      var existing := if key in groups.values then groups.values[key] else [];
      if key !in groups.keys {
        groups := groups.(keys := groups.keys + [key]);
      }
      groups := groups.(values := groups.values[key := existing + [value]]);
    }
    assert pairs[..|pairs|] == pairs;
  }

  // ---------------------------------------------------------------- property checks

  datatype CheckItem = CheckItem(username: string, password: string, id: string, otaId: int)

  /** One message: the account and the properties to check with it. */
  datatype Message = Message(groupId: int, username: string, password: string, items: seq<CheckItem>)

  function ByAccount(items: seq<CheckItem>): (r: seq<(string, CheckItem)>)
    ensures |r| == |items|
  {
    seq(|items|, i requires 0 <= i < |items| => (items[i].username, items[i]))
  }

  function MessageFor(group: seq<CheckItem>): Message
    requires group != []
  {
    Message(group[0].otaId, group[0].username, group[0].password, group)
  }

  lemma {:induction false} GroupsAreNonEmpty(pairs: seq<(string, CheckItem)>, key: string)
    requires key in FirstSeen(pairs)
    ensures ValuesOf(pairs, key) != []
  {
    if pairs[|pairs| - 1].0 != key {
      var init := pairs[..|pairs| - 1];
      assert key in FirstSeen(init);
      GroupsAreNonEmpty(init, key);
    }
  }

  lemma {:induction false} GroupBelongs(items: seq<CheckItem>, key: string)
    ensures forall x :: x in ValuesOf(ByAccount(items), key) <==> x in items && x.username == key
  {
    if items != [] {
      var init := items[..|items| - 1];
      GroupBelongs(init, key);
      assert ByAccount(items)[..|items| - 1] == ByAccount(init);
      assert items == init + [items[|items| - 1]];
    }
  }

  /** The message carries the whole group of its account and the first item's password and id. */
  predicate Carries(m: Message, account: string, group: seq<CheckItem>) {
    && m.username == account && m.items == group && group != []
    && m.password == group[0].password && m.groupId == group[0].otaId
  }

  lemma MessageCarriesGroup(items: seq<CheckItem>, account: string)
    requires account in FirstSeen(ByAccount(items))
    ensures
      var group := ValuesOf(ByAccount(items), account);
      group != [] && Carries(MessageFor(group), account, group)
  {
    GroupsAreNonEmpty(ByAccount(items), account);
    GroupBelongs(items, account);
    var group := ValuesOf(ByAccount(items), account);
    assert group[0] in group;
  }

  /** One message per account, in order of first appearance, carrying all items of that account. */
  method BuildMessages(items: seq<CheckItem>) returns (messages: seq<Message>)
    ensures
      var accounts := FirstSeen(ByAccount(items));
      && |messages| == |accounts|
      && forall m :: 0 <= m < |messages| ==> Carries(messages[m], accounts[m], ValuesOf(ByAccount(items), accounts[m]))
  {
    hide FirstSeen, ValuesOf, ByAccount, Carries, MessageFor;
    var pairs := ByAccount(items);
    var groups := GroupPairs(pairs);
    messages := [];
    for m := 0 to |groups.keys|
      invariant |messages| == m
      invariant forall k :: 0 <= k < m ==> Carries(messages[k], groups.keys[k], ValuesOf(pairs, groups.keys[k]))
    {
      var key := groups.keys[m];
      MessageCarriesGroup(items, key);
      messages := messages + [MessageFor(groups.values[key])];
    }
  }

  // ---------------------------------------------------------------- batches

  const BATCH_SIZE := 10

  datatype BatchEntry<T> = BatchEntry(id: string, message: T)

  function EntryId(index: nat): string {
    "msg-" + NatToString(index)
  }

  lemma EntryIdInjective(a: nat, b: nat)
    requires EntryId(a) == EntryId(b)
    ensures a == b
  {
    assert EntryId(a)[4..] == NatToString(a);
    assert EntryId(b)[4..] == NatToString(b);
    ParseNatToString(a);
    ParseNatToString(b);
  }

  function Entries<T>(messages: seq<T>): (r: seq<BatchEntry<T>>)
    ensures |r| == |messages|
  {
    seq(|messages|, i requires 0 <= i < |messages| => BatchEntry(EntryId(i), messages[i]))
  }

  /** What sending one batch comes to: how many entries the queue accepted, or an exception. */
  type Send = nat -> Option<nat>

  function Accepted(send: Send, n: nat): nat {
    if n == 0 then 0
    else Accepted(send, n - 1) + match send(n - 1) case None => 0 case Some(k) => k
  }

  method BatchEntries<T>(messages: seq<T>, i: nat, end: nat) returns (entries: seq<BatchEntry<T>>)
    requires i <= end <= |messages|
    ensures |entries| == end - i && entries == Entries(messages)[i..end]
    ensures NumberedBatch(messages, i, entries)
  {
    var batch := messages[i..end];
    entries := seq(|batch|, index requires 0 <= index < |batch| => BatchEntry(EntryId(i + index), batch[index]));
  }

  lemma PrefixGrows<T>(s: seq<T>, i: nat, j: nat)
    requires i <= j <= |s|
    ensures s[..i] + s[i..j] == s[..j]
    ensures s[..|s|] == s
  {
  }

  lemma StartsEmpty<E>(send: Send)
    ensures Accepted(send, 0) == 0
    ensures Concat<E>([]) == []
  {
  }

  lemma AcceptedStep(send: Send, n: nat)
    ensures Accepted(send, n + 1) == Accepted(send, n) + match send(n) case None => 0 case Some(k) => k
  {
  }

  lemma ConcatStep<E>(parts: seq<seq<E>>, part: seq<E>)
    ensures Concat(parts + [part]) == Concat(parts) + part
  {
    assert (parts + [part])[..|parts|] == parts;
  }

  /** The batch carries the messages from number `first` on, each under the id of its number. */
  predicate NumberedBatch<T(==)>(messages: seq<T>, first: nat, batch: seq<BatchEntry<T>>) {
    && first + |batch| <= |messages|
    && forall k :: 0 <= k < |batch| ==>
         batch[k] == BatchEntry("msg-" + NatToString(first + k), messages[first + k])
  }

  /** Batch `b` carries the messages from number 10 * b on. */
  predicate Numbered<T(==)>(messages: seq<T>, batches: seq<seq<BatchEntry<T>>>) {
    forall b :: 0 <= b < |batches| ==> NumberedBatch(messages, 10 * b, batches[b])
  }

  lemma NothingNumbered<T>(messages: seq<T>)
    ensures Numbered(messages, [])
  {
  }

  lemma NumberedStep<T>(messages: seq<T>, batches: seq<seq<BatchEntry<T>>>, entries: seq<BatchEntry<T>>)
    requires Numbered(messages, batches) && NumberedBatch(messages, 10 * |batches|, entries)
    ensures Numbered(messages, batches + [entries])
  {
    hide NumberedBatch;
    var all := batches + [entries];
    assert forall b :: 0 <= b < |batches| ==> all[b] == batches[b];
  }

  /** Sends batch after batch; an exception ends the dispatch and is swallowed. */
  method PushMessages<T(==)>(
    queueUrl: bool, messages: seq<T>, send: Send)
    returns (batches: seq<seq<BatchEntry<T>>>, totalPushed: nat)
    ensures !queueUrl ==> batches == [] && totalPushed == 0
    ensures Concat(batches) <= Entries(messages)
    ensures forall b :: 0 <= b < |batches| ==> 0 < |batches[b]| <= 10
    ensures forall b :: 0 <= b < |batches| - 1 ==> |batches[b]| == 10 && send(b).Some?
    ensures Numbered(messages, batches)
    ensures totalPushed == Accepted(send, |batches|)
    ensures queueUrl && Concat(batches) != Entries(messages) ==> batches != [] && send(|batches| - 1) == None
  {
    hide Entries, EntryId, Accepted, Concat, NumberedBatch, Numbered;
    NothingNumbered(messages);
    StartsEmpty<BatchEntry<T>>(send);
    batches, totalPushed := [], 0;
    if !queueUrl || messages == [] {
      return;
    }
    ghost var all := Entries(messages);
    var i := 0;
    while i < |messages|
      invariant 0 <= i
      invariant Concat(batches) == if i < |messages| then all[..i] else all
      invariant forall b :: 0 <= b < |batches| ==> 0 < |batches[b]| <= BATCH_SIZE && send(b).Some?
      invariant i < |messages| ==> forall b :: 0 <= b < |batches| ==> |batches[b]| == BATCH_SIZE
      invariant forall b :: 0 <= b < |batches| - 1 ==> |batches[b]| == BATCH_SIZE
      invariant Numbered(messages, batches) && i == 10 * |batches|
      invariant totalPushed == Accepted(send, |batches|)
      decreases |messages| - i
    {
      var end := if i + BATCH_SIZE < |messages| then i + BATCH_SIZE else |messages|;
      var entries := BatchEntries(messages, i, end);
      PrefixGrows(all, i, end);
      AcceptedStep(send, |batches|);
      ConcatStep(batches, entries);
      NumberedStep(messages, batches, entries);
      batches := batches + [entries];
      var outcome := send(|batches| - 1);
      if outcome == None {
        return;
      }
      totalPushed := totalPushed + outcome.value;
      i := i + BATCH_SIZE;
    }
  }

  /** All entries of a dispatch, across its batches, have different ids. */
  lemma EntryIdsDistinct<T>(messages: seq<T>)
    ensures forall i, j :: 0 <= i < j < |messages| ==> Entries(messages)[i].id != Entries(messages)[j].id
  {
    forall i, j | 0 <= i < j < |messages|
      ensures Entries(messages)[i].id != Entries(messages)[j].id
    {
      if EntryId(i) == EntryId(j) {
        EntryIdInjective(i, j);
      }
    }
  }
}
