/** The bookkeeping of communication channels (`ConnectionManager` and `ConnectionSubManager`): one sub-manager for each
    module with its receivers and senders, and channel counters at both levels. */
module Connections {
  import opened Sequences

  const SIZE_MAX: nat := 0xFFFF_FFFF_FFFF_FFFF

  // The connection type of each channel, by channel number.
  type Channels = map<nat, string>

  // The channels of one module.
  datatype Sub = Sub(receivers: Channels, senders: Channels)

  datatype Outcome = Returned(value: bool) | CannotGetChidAndType | CannotAddChannel

  /** Decrementing an unsigned counter. */
  function Minus(n: nat): nat {
    if n == 0 then SIZE_MAX else n - 1
  }

  // --- sums over the modules ---

  ghost function Total(sizes: map<string, nat>): nat {
    if sizes == map[] then 0
    else
      var key :| key in sizes;
      sizes[key] + Total(sizes - {key})
  }

  lemma {:induction false} TotalPick(sizes: map<string, nat>, key: string)
    requires key in sizes
    ensures Total(sizes) == sizes[key] + Total(sizes - {key})
    decreases |sizes|
  {
    var first :| first in sizes && Total(sizes) == sizes[first] + Total(sizes - {first});
    if first != key {
      TotalPick(sizes - {first}, key);
      TotalPick(sizes - {key}, first);
      assert sizes - {first} - {key} == sizes - {key} - {first};
    }
  }

  /** Changing the size of one module changes the total by the difference. */
  lemma TotalUpdate(sizes: map<string, nat>, key: string, size: nat)
    ensures Total(sizes[key := size]) + (if key in sizes then sizes[key] else 0) == Total(sizes) + size
  {
    TotalPick(sizes[key := size], key);
    if key in sizes {
      TotalPick(sizes, key);
      assert sizes[key := size] - {key} == sizes - {key};
    } else {
      assert sizes[key := size] - {key} == sizes;
    }
  }

  lemma {:induction false} TotalZeroIff(sizes: map<string, nat>)
    ensures Total(sizes) == 0 <==> forall key :: key in sizes ==> sizes[key] == 0
    decreases |sizes|
  {
    if sizes != map[] {
      var first :| first in sizes && Total(sizes) == sizes[first] + Total(sizes - {first});
      var rest := sizes - {first};
      TotalZeroIff(rest);
      if Total(sizes) == 0 {
        forall key | key in sizes ensures sizes[key] == 0 {
          assert key == first || key in rest;
        }
      }
    }
  }

  function Size(channels: Channels): nat {
    |channels|
  }

  function ReceiverSizes(subs: map<string, Sub>): map<string, nat> {
    map key | key in subs :: Size(subs[key].receivers)
  }

  function SenderSizes(subs: map<string, Sub>): map<string, nat> {
    map key | key in subs :: Size(subs[key].senders)
  }

  /** The counters of a manager agree with the channels of all modules. */
  ghost predicate Counted(subs: map<string, Sub>, receivers: nat, senders: nat) {
    receivers == Total(ReceiverSizes(subs)) && senders == Total(SenderSizes(subs))
  }

  lemma ReceiverSizesUpdate(subs: map<string, Sub>, key: string, sub: Sub)
    ensures ReceiverSizes(subs[key := sub]) == ReceiverSizes(subs)[key := Size(sub.receivers)]
  {
    hide Size;
  }

  lemma SenderSizesUpdate(subs: map<string, Sub>, key: string, sub: Sub)
    ensures SenderSizes(subs[key := sub]) == SenderSizes(subs)[key := Size(sub.senders)]
  {
    hide Size;
  }

  /** The counters stay right if they change as much as the channels of one module do. */
  lemma CountedUpdate(subs: map<string, Sub>, key: string, sub: Sub, receivers: nat, senders: nat, receivers': nat,
                      senders': nat)
    requires Counted(subs, receivers, senders)
    requires receivers' + (if key in subs then Size(subs[key].receivers) else 0) == receivers + Size(sub.receivers)
    requires senders' + (if key in subs then Size(subs[key].senders) else 0) == senders + Size(sub.senders)
    ensures Counted(subs[key := sub], receivers', senders')
  {
    hide Total, Size;
    ReceiverSizesUpdate(subs, key, sub);
    SenderSizesUpdate(subs, key, sub);
    TotalUpdate(ReceiverSizes(subs), key, Size(sub.receivers));
    TotalUpdate(SenderSizes(subs), key, Size(sub.senders));
  }

  /** No module has more channels than the manager counts. */
  lemma CountedPart(subs: map<string, Sub>, key: string, receivers: nat, senders: nat)
    requires Counted(subs, receivers, senders) && key in subs
    ensures Size(subs[key].receivers) <= receivers && Size(subs[key].senders) <= senders
  {
    hide Total, Size;
    TotalPick(ReceiverSizes(subs), key);
    TotalPick(SenderSizes(subs), key);
  }

  predicate NoChannels(subs: map<string, Sub>) {
    forall key :: key in subs ==> subs[key] == Sub(map[], map[])
  }

  /** Both totals are 0 exactly if there is no channel anywhere. */
  lemma NothingLeftIff(subs: map<string, Sub>)
    ensures Counted(subs, 0, 0) <==> NoChannels(subs)
  {
    hide Total;
    TotalZeroIff(ReceiverSizes(subs));
    TotalZeroIff(SenderSizes(subs));
    if Total(ReceiverSizes(subs)) == 0 && Total(SenderSizes(subs)) == 0 {
      forall key | key in subs ensures subs[key] == Sub(map[], map[]) {
        assert ReceiverSizes(subs)[key] == 0 && SenderSizes(subs)[key] == 0;
      }
    }
  }

  lemma SizeAdd(channels: Channels, channel: nat, kind: string)
    requires channel !in channels
    ensures Size(channels[channel := kind]) == Size(channels) + 1 && Size(map[]) == 0
  {
  }

  lemma CountedOnce(subs: map<string, Sub>, receivers: nat, senders: nat)
    requires Counted(subs, receivers, senders)
    ensures Counted(subs, 0, 0) <==> receivers == 0 && senders == 0
  {
  }

  class SubManager {
    var receivers: Channels
    var senders: Channels
    var receiverChannels: nat
    var senderChannels: nat

    ghost predicate Valid()
      reads this
    {
      receiverChannels == Size(receivers) && senderChannels == Size(senders)
    }

    constructor ()
      ensures receivers == map[] && senders == map[] && Valid()
    {
      receivers, senders, receiverChannels, senderChannels := map[], map[], 0, 0;
    }

    /** Removing a channel that does not exist makes the counter wrong, and only that does. */
    method RemoveReceiverChannel(channel: nat)
      requires Valid()
      modifies this`receivers, this`receiverChannels
      ensures receivers == old(receivers) - {channel} && receiverChannels == Minus(old(receiverChannels))
      ensures Valid() <==> channel in old(receivers)
      ensures old(receiverChannels) == 0 ==> receiverChannels == 0xFFFF_FFFF_FFFF_FFFF
    {
      receivers := receivers - {channel};
      receiverChannels := Minus(receiverChannels);
    }

    method RemoveSenderChannel(channel: nat)
      requires Valid()
      modifies this`senders, this`senderChannels
      ensures senders == old(senders) - {channel} && senderChannels == Minus(old(senderChannels))
      ensures Valid() <==> channel in old(senders)
      ensures old(senderChannels) == 0 ==> senderChannels == 0xFFFF_FFFF_FFFF_FFFF
    {
      senders := senders - {channel};
      senderChannels := Minus(senderChannels);
    }
  }

  class ConnectionManager {
    var subs: map<string, SubManager>
    var receiverChannels: nat
    var senderChannels: nat

    ghost function View(): map<string, Sub>
      reads this, subs.Values
    {
      map key | key in subs :: Sub(subs[key].receivers, subs[key].senders)
    }

    /** The counters agree with the maps at both levels. */
    ghost predicate Valid()
      reads this, subs.Values
    {
      && (forall key, other :: key in subs && other in subs && key != other ==> subs[key] != subs[other])
      && (forall key :: key in subs ==> subs[key].Valid())
      && Counted(View(), receiverChannels, senderChannels)
    }

    constructor ()
      ensures Valid() && View() == map[]
    {
      subs, receiverChannels, senderChannels := map[], 0, 0;
    }

    lemma ViewIs(view: map<string, Sub>)
      requires view.Keys == subs.Keys
      requires forall key :: key in subs ==> view[key] == Sub(subs[key].receivers, subs[key].senders)
      ensures View() == view
    {
    }

    lemma ViewParts()
      ensures View().Keys == subs.Keys
      ensures forall key :: key in subs ==> View()[key] == Sub(subs[key].receivers, subs[key].senders)
    {
    }

    /** A new module gets a sub-manager without channels. */
    method AddSubManager(key: string)
      requires Valid()
      modifies this`subs
      ensures Valid()
      ensures View() == if key in old(View()) then old(View()) else old(View())[key := Sub(map[], map[])]
      ensures forall k :: k in old(subs) ==> k in subs && subs[k] == old(subs[k])
    {
      hide Counted, NoChannels, View, Size;
      ViewParts();
      if key !in subs {
        ghost var before := View();
        SizeAdd(map[], 0, "");
        var sub := new SubManager();
        subs := subs[key := sub];
        ViewIs(before[key := Sub(map[], map[])]);
        CountedUpdate(before, key, Sub(map[], map[]), receiverChannels, senderChannels,
                      receiverChannels, senderChannels);
      }
    }

    /** `chid` is the channel number in the configuration, if it is well-formed, and `made` the type of the channel that
        the loader makes, unless it fails. */
    method AddReceiverChannel(key: string, chid: Option<nat>, made: Option<string>) returns (r: Outcome)
      requires Valid() && (chid.Some? ==> key in subs)
      modifies this`receiverChannels, if key in subs then {subs[key]} else {}
      ensures Valid()
      ensures r == if chid.None? then CannotGetChidAndType
                   else if chid.value in old(subs[key].receivers) then Returned(false)
                   else if made.None? then CannotAddChannel else Returned(true)
      ensures View() == if r == Returned(true)
                        then old(View())[key :=
                               old(View())[key].(receivers := old(subs[key].receivers)[chid.value := made.value])]
                        else old(View())
    {
      hide Counted, NoChannels, View, Size;
      ViewParts();
      if chid.None? {
        return CannotGetChidAndType;
      }
      var sub := subs[key];
      if chid.value in sub.receivers {
        return Returned(false);
      }
      if made.None? {
        return CannotAddChannel;
      }
      InsertReceiver(key, chid.value, made.value);
      r := Returned(true);
    }

    method AddSenderChannel(key: string, chid: Option<nat>, made: Option<string>) returns (r: Outcome)
      requires Valid() && (chid.Some? ==> key in subs)
      modifies this`senderChannels, if key in subs then {subs[key]} else {}
      ensures Valid()
      ensures r == if chid.None? then CannotGetChidAndType
                   else if chid.value in old(subs[key].senders) then Returned(false)
                   else if made.None? then CannotAddChannel else Returned(true)
      ensures View() == if r == Returned(true)
                        then old(View())[key :=
                               old(View())[key].(senders := old(subs[key].senders)[chid.value := made.value])]
                        else old(View())
    {
      hide Counted, NoChannels, View, Size;
      ViewParts();
      if chid.None? {
        return CannotGetChidAndType;
      }
      var sub := subs[key];
      if chid.value in sub.senders {
        return Returned(false);
      }
      if made.None? {
        return CannotAddChannel;
      }
      InsertSender(key, chid.value, made.value);
      r := Returned(true);
    }

    method InsertReceiver(key: string, channel: nat, kind: string)
      requires Valid() && key in subs && channel !in subs[key].receivers
      modifies this`receiverChannels, subs[key]
      ensures Valid()
      ensures View() == old(View())[key := old(View())[key].(receivers := old(subs[key].receivers)[channel := kind])]
    {
      hide Counted, View, Size;
      ViewParts();
      ghost var before := View();
      var sub := subs[key];
      SizeAdd(sub.receivers, channel, kind);
      sub.receivers := sub.receivers[channel := kind];
      receiverChannels := receiverChannels + 1;
      sub.receiverChannels := sub.receiverChannels + 1;
      ghost var now := Sub(sub.receivers, sub.senders);
      ViewIs(before[key := now]);
      CountedUpdate(before, key, now, receiverChannels - 1, senderChannels, receiverChannels, senderChannels);
    }

    method InsertSender(key: string, channel: nat, kind: string)
      requires Valid() && key in subs && channel !in subs[key].senders
      modifies this`senderChannels, subs[key]
      ensures Valid()
      ensures View() == old(View())[key := old(View())[key].(senders := old(subs[key].senders)[channel := kind])]
    {
      hide Counted, View, Size;
      ViewParts();
      ghost var before := View();
      var sub := subs[key];
      SizeAdd(sub.senders, channel, kind);
      sub.senders := sub.senders[channel := kind];
      senderChannels := senderChannels + 1;
      sub.senderChannels := sub.senderChannels + 1;
      ghost var now := Sub(sub.receivers, sub.senders);
      ViewIs(before[key := now]);
      CountedUpdate(before, key, now, receiverChannels, senderChannels - 1, receiverChannels, senderChannels);
    }

    /** Removes the channels of one module and tells whether there is no channel left anywhere. */
    method RemoveChannel(name: string) returns (none: bool)
      requires Valid()
      modifies this`receiverChannels, this`senderChannels, if name in subs then {subs[name]} else {}
      ensures Valid()
      ensures View() == if name in old(View()) then old(View())[name := Sub(map[], map[])] else old(View())
      ensures none <==> NoChannels(View())
    {
      hide Counted, NoChannels, View, Size;
      ViewParts();
      if name in subs {
        ghost var before, r, s := View(), receiverChannels, senderChannels;
        CountedPart(before, name, r, s);
        SizeAdd(map[], 0, "");
        var sub := subs[name];
        RemoveReceivers(sub);
        RemoveSenders(sub);
        ViewIs(before[name := Sub(map[], map[])]);
        CountedUpdate(before, name, Sub(map[], map[]), r, s, receiverChannels, senderChannels);
      }
      NothingLeftIff(View());
      CountedOnce(View(), receiverChannels, senderChannels);
      none := !(senderChannels != 0 || receiverChannels != 0);
    }

    /** Removes all receivers of a module, as listed before the first is removed, until there are none. */
    method RemoveReceivers(sub: SubManager)
      requires sub.Valid() && receiverChannels >= Size(sub.receivers)
      modifies this`receiverChannels, sub`receivers, sub`receiverChannels
      ensures sub.Valid() && sub.receivers == map[] && receiverChannels == old(receiverChannels - Size(sub.receivers))
    {
      while sub.receivers != map[]
        invariant sub.Valid() && receiverChannels >= Size(sub.receivers)
        invariant receiverChannels - Size(sub.receivers) == old(receiverChannels - Size(sub.receivers))
        decreases Size(sub.receivers)
      {
        var listed := sub.receivers.Keys;
        while listed != {}
          invariant sub.Valid() && receiverChannels >= Size(sub.receivers) && listed == sub.receivers.Keys
          invariant receiverChannels - Size(sub.receivers) == old(receiverChannels - Size(sub.receivers))
          decreases listed
        {
          var channel :| channel in listed;
          sub.RemoveReceiverChannel(channel);
          receiverChannels := Minus(receiverChannels);
          listed := listed - {channel};
        }
      }
    }

    method RemoveSenders(sub: SubManager)
      requires sub.Valid() && senderChannels >= Size(sub.senders)
      modifies this`senderChannels, sub`senders, sub`senderChannels
      ensures sub.Valid() && sub.senders == map[] && senderChannels == old(senderChannels - Size(sub.senders))
    {
      while sub.senders != map[]
        invariant sub.Valid() && senderChannels >= Size(sub.senders)
        invariant senderChannels - Size(sub.senders) == old(senderChannels - Size(sub.senders))
        decreases Size(sub.senders)
      {
        var listed := sub.senders.Keys;
        while listed != {}
          invariant sub.Valid() && senderChannels >= Size(sub.senders) && listed == sub.senders.Keys
          invariant senderChannels - Size(sub.senders) == old(senderChannels - Size(sub.senders))
          decreases listed
        {
          var channel :| channel in listed;
          sub.RemoveSenderChannel(channel);
          senderChannels := Minus(senderChannels);
          listed := listed - {channel};
        }
      }
    }
  }
}
