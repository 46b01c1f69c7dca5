/** How a TLS server chooses the cipher: one pass over the preferred list, against what the
    equal-preference groups of that list mean. */
module TlsCipher {
  import opened ByteString

  datatype Cipher = Cipher(id: nat, minVersion: nat, maxVersion: nat, keyExchange: bv32, auth: bv32)

  /** The protocol version, and what the server's configuration allows. */
  datatype Config = Config(version: nat, maskK: bv32, maskA: bv32)

  predicate Supported(g: Config, c: Cipher) {
    c.minVersion <= g.version <= c.maxVersion && c.keyExchange & g.maskK != 0 && c.auth & g.maskA != 0
  }

  /** The first place of a cipher in a list, as `sk_SSL_CIPHER_find` gives it. */
  function Find(allow: seq<Cipher>, c: Cipher): (r: Option<nat>)
    ensures r.Some? ==> r.value < |allow| && allow[r.value] == c
    ensures r.None? <==> c !in allow
  {
    if allow == [] then None
    else if allow[0] == c then Some(0)
    else
      var r := Find(allow[1..], c);
      if r.None? then None else Some(r.value + 1)
  }

  // ------------------------------------------------------------- what is meant

  /** The preferred list, the group flags for it (true: the group goes on), and the other list. */
  datatype Lists = Lists(prio: seq<Cipher>, flags: Option<seq<bool>>, allow: seq<Cipher>)

  predicate ValidLists(l: Lists) {
    l.flags.Some? ==> |l.flags.value| == |l.prio|
  }

  predicate Continues(l: Lists, i: nat)
    requires ValidLists(l) && i < |l.prio|
  {
    l.flags.Some? && l.flags.value[i]
  }

  predicate Usable(g: Config, l: Lists, i: nat)
    requires i < |l.prio|
  {
    Supported(g, l.prio[i]) && l.prio[i] in l.allow
  }

  function Place(l: Lists, i: nat): (p: nat)
    requires i < |l.prio| && l.prio[i] in l.allow
    ensures p < |l.allow| && l.allow[p] == l.prio[i]
  {
    Find(l.allow, l.prio[i]).value
  }

  /** The entries from `a` to `b` are one equal-preference group. */
  predicate Group(l: Lists, a: nat, b: nat)
    requires ValidLists(l)
  {
    && a <= b < |l.prio|
    && (a > 0 ==> !Continues(l, a - 1))
    && (forall k :: a <= k < b ==> Continues(l, k))
    && !Continues(l, b)
  }

  predicate NoneUsable(g: Config, l: Lists, a: nat, b: nat)
    requires b <= |l.prio|
  {
    forall k :: a <= k < b ==> !Usable(g, l, k)
  }

  /** Entry `j` of the group is usable, and no usable entry of it comes earlier in the other list. */
  predicate Best(g: Config, l: Lists, a: nat, b: nat, j: nat)
    requires b < |l.prio|
  {
    && a <= j <= b && Usable(g, l, j)
    && forall k :: a <= k <= b && Usable(g, l, k) ==> Place(l, j) <= Place(l, k)
  }

  /** `j` is the choice: the best one of the first group that has a usable entry. */
  ghost predicate ChosenIn(g: Config, l: Lists, a: nat, b: nat, j: nat)
    requires ValidLists(l)
  {
    Group(l, a, b) && NoneUsable(g, l, 0, a) && Best(g, l, a, b, j)
  }

  /** Where a last group that is not closed begins; the end of the list when there is none. */
  function OpenFrom(l: Lists, n: nat): (a: nat)
    requires ValidLists(l) && n <= |l.prio|
    ensures a <= n && (forall k :: a <= k < n ==> Continues(l, k)) && (a > 0 ==> !Continues(l, a - 1))
  {
    if n > 0 && Continues(l, n - 1) then OpenFrom(l, n - 1) else n
  }

  predicate Closed(l: Lists)
    requires ValidLists(l)
  {
    OpenFrom(l, |l.prio|) == |l.prio|
  }

  /** What a choice is: the best entry of the first group that has a usable one; no choice means
      that no closed group has a usable entry. */
  ghost predicate IsChoice(g: Config, l: Lists, choice: Option<Cipher>)
    requires ValidLists(l)
  {
    match choice
    case Some(c) => exists a: nat, b: nat, j: nat :: ChosenIn(g, l, a, b, j) && l.prio[j] == c
    case None => NoneUsable(g, l, 0, OpenFrom(l, |l.prio|))
  }

  /** There is at most one choice. */
  lemma ChoiceIsUnique(g: Config, l: Lists, a: nat, b: nat, j: nat, a': nat, b': nat, j': nat)
    requires ValidLists(l) && ChosenIn(g, l, a, b, j) && ChosenIn(g, l, a', b', j')
    ensures l.prio[j] == l.prio[j']
  {
    SameStart(g, l, a, b, j, a', b', j');
    SameStart(g, l, a', b', j', a, b, j);
    if b != b' {
      assert false;
    }
  }

  lemma SameStart(g: Config, l: Lists, a: nat, b: nat, j: nat, a': nat, b': nat, j': nat)
    requires ValidLists(l) && ChosenIn(g, l, a, b, j) && ChosenIn(g, l, a', b', j')
    ensures a <= a'
  {
    if a' < a {
      assert false;
    }
  }

  /** The meaning leaves no freedom: there is exactly one result for all lists. */
  lemma ChoiceIsDetermined(g: Config, l: Lists, choice: Option<Cipher>, choice': Option<Cipher>)
    requires ValidLists(l) && IsChoice(g, l, choice) && IsChoice(g, l, choice')
    ensures choice == choice'
  {
    if choice.Some? {
      SomeIsNotNone(g, l, choice);
    }
    if choice'.Some? {
      SomeIsNotNone(g, l, choice');
    }
    if choice.Some? && choice'.Some? {
      var a: nat, b: nat, j: nat :| ChosenIn(g, l, a, b, j) && l.prio[j] == choice.value;
      var a': nat, b': nat, j': nat :| ChosenIn(g, l, a', b', j') && l.prio[j'] == choice'.value;
      ChoiceIsUnique(g, l, a, b, j, a', b', j');
    }
  }

  lemma SomeIsNotNone(g: Config, l: Lists, choice: Option<Cipher>)
    requires ValidLists(l) && IsChoice(g, l, choice) && choice.Some?
    ensures !IsChoice(g, l, None)
  {
    var a: nat, b: nat, j: nat :| ChosenIn(g, l, a, b, j) && l.prio[j] == choice.value;
    ChosenIsClosed(g, l, a, b, j);
  }

  lemma ChosenIsClosed(g: Config, l: Lists, a: nat, b: nat, j: nat)
    requires ValidLists(l) && ChosenIn(g, l, a, b, j)
    ensures j < OpenFrom(l, |l.prio|) && !NoneUsable(g, l, 0, OpenFrom(l, |l.prio|))
  {
    assert !Continues(l, b);
    assert Usable(g, l, j);
  }

  /** Without groups, which is without server preference, it is the first usable entry. */
  lemma UngroupedIsFirst(g: Config, l: Lists, choice: Option<Cipher>)
    requires ValidLists(l) && l.flags.None? && IsChoice(g, l, choice)
    ensures match choice
            case Some(c) => exists j :: 0 <= j < |l.prio| && Usable(g, l, j) && NoneUsable(g, l, 0, j) && l.prio[j] == c
            case None => NoneUsable(g, l, 0, |l.prio|)
  {
    if choice.Some? {
      var a: nat, b: nat, j: nat :| ChosenIn(g, l, a, b, j) && l.prio[j] == choice.value;
      assert !Continues(l, a);
      assert a == j;
    }
  }

  /** With the last group closed nothing is chosen if and only if nothing is usable. */
  lemma NothingIffNoneUsable(g: Config, l: Lists, choice: Option<Cipher>)
    requires ValidLists(l) && Closed(l) && IsChoice(g, l, choice)
    ensures choice.None? <==> NoneUsable(g, l, 0, |l.prio|)
  {
    if choice.Some? {
      SomeIsNotNone(g, l, choice);
    }
  }

  /** A usable cipher in a last group that is not closed is passed over. */
  lemma OpenGroupIsPassedOver()
    ensures var c := Cipher(0x2f, 0x301, 0x303, 1, 1);
            var g, l := Config(0x303, 1, 1), Lists([c], Some([true]), [c]);
            ValidLists(l) && Usable(g, l, 0) && IsChoice(g, l, None)
  {
  }

  // ------------------------------------------------------------- the single pass

  /** `ssl3_choose_cipher` after the lists have been put in order of priority. The choice is in
      the other list; entries of a last group that is not closed are never chosen. */
  method ChooseCipher(g: Config, l: Lists) returns (choice: Option<Cipher>)
    requires ValidLists(l)
    ensures IsChoice(g, l, choice)
  {
    hide Supported, Find;
    // The least place found so far in the current group.
    var groupMin: Option<nat> := None;
    // Where the current group begins, and the entry the minimum belongs to.
    ghost var a, j := 0, 0;
    for i := 0 to |l.prio|
      invariant a <= i && NoneUsable(g, l, 0, a) && (a > 0 ==> !Continues(l, a - 1))
      invariant forall k :: a <= k < i ==> Continues(l, k)
      invariant groupMin.None? ==> NoneUsable(g, l, a, i)
      invariant l.flags.None? ==> groupMin.None?
      invariant groupMin.Some? ==> 0 < i && Best(g, l, a, i - 1, j) && groupMin.value == Place(l, j)
    {
      var c := l.prio[i];
      var found := Find(l.allow, c);
      if Supported(g, c) && found.Some? {
        var place := found.value;
        assert place == Place(l, i) && Usable(g, l, i);
        if l.flags.Some? && l.flags.value[i] {
          // In a group: update the minimum and continue looking.
          if groupMin.None? || groupMin.value > place {
            groupMin, j := Some(place), i;
          }
        } else {
          if groupMin.Some? && groupMin.value < place {
            place := groupMin.value;
          } else {
            j := i;
          }
          assert ChosenIn(g, l, a, i, j);
          return Some(l.allow[place]);
        }
      } else {
        assert !Usable(g, l, i);
      }
      if l.flags.Some? && !l.flags.value[i] && groupMin.Some? {
        // About to leave a group with a match in it.
        assert ChosenIn(g, l, a, i, j);
        return Some(l.allow[groupMin.value]);
      }
      if !Continues(l, i) {
        a := i + 1;
      }
    }
    assert OpenFrom(l, |l.prio|) == a;
    choice := None;
  }

  /** Which list has priority depends on SSL_OP_CIPHER_SERVER_PREFERENCE; only the server's
      list has groups. */
  function ListsFor(client: seq<Cipher>, server: seq<Cipher>, groups: seq<bool>, serverPreference: bool): (l: Lists)
    requires |groups| == |server|
    ensures ValidLists(l)
  {
    if serverPreference then Lists(server, Some(groups), client) else Lists(client, None, server)
  }

  /** The version and the keys allow a cipher, and a list has it. */
  predicate Common(g: Config, c: Cipher, list: seq<Cipher>) {
    Supported(g, c) && c in list
  }

  /** The client's first cipher that is supported and that the server has. */
  ghost predicate ClientsFirst(g: Config, client: seq<Cipher>, server: seq<Cipher>, c: Cipher) {
    exists j :: 0 <= j < |client| && client[j] == c && Common(g, c, server)
                && forall k :: 0 <= k < j ==> !Common(g, client[k], server)
  }

  /** Places `a` to `b` of the server's list are a group; nothing in front of it is supported and
      offered; and of what is, in the group, `c` is what the client names first. */
  ghost predicate GroupsFavourite(g: Config, client: seq<Cipher>, server: seq<Cipher>, groups: seq<bool>, a: nat, b: nat,
                                  c: Cipher)
    requires |groups| == |server|
  {
    && a <= b < |server| && (a > 0 ==> !groups[a - 1]) && (forall k :: a <= k < b ==> groups[k]) && !groups[b]
    && (forall k :: 0 <= k < a ==> !Common(g, server[k], client))
    && c in server[a..b + 1] && Supported(g, c)
    && exists p :: 0 <= p < |client| && client[p] == c
                   && forall q :: 0 <= q < p ==> !Common(g, client[q], server[a..b + 1])
  }

  lemma {:induction false} FindIsFirst(allow: seq<Cipher>, c: Cipher)
    ensures Find(allow, c).Some? ==> forall k :: 0 <= k < Find(allow, c).value ==> allow[k] != c
  {
    if allow != [] && allow[0] != c {
      FindIsFirst(allow[1..], c);
      assert forall k :: 0 < k < |allow| ==> allow[k] == allow[1..][k - 1];
    }
  }

  /** Without server preference the client's order decides. */
  lemma ClientDecides(g: Config, client: seq<Cipher>, server: seq<Cipher>, choice: Option<Cipher>)
    requires IsChoice(g, Lists(client, None, server), choice)
    ensures choice.Some? ==> ClientsFirst(g, client, server, choice.value)
    ensures choice.None? ==> forall c :: c in client ==> !Common(g, c, server)
  {
    hide Supported, Find;
    var l := Lists(client, None, server);
    match choice {
      case Some(c) =>
        var a: nat, b: nat, j: nat :| ChosenIn(g, l, a, b, j) && l.prio[j] == c;
        assert a < b ==> Continues(l, a);
        assert forall k :: 0 <= k < j ==> Common(g, client[k], server) == Usable(g, l, k);
      case None =>
        forall c | c in client
          ensures !Common(g, c, server)
        {
          var k :| 0 <= k < |client| && client[k] == c;
          assert !Usable(g, l, k);
        }
    }
  }

  /** With server preference the order of the server's groups decides, and inside a group the
      client's order. */
  lemma ServerDecides(g: Config, client: seq<Cipher>, server: seq<Cipher>, groups: seq<bool>, choice: Option<Cipher>)
    requires |groups| == |server| && Closed(Lists(server, Some(groups), client))
    requires IsChoice(g, Lists(server, Some(groups), client), choice)
    ensures choice.Some? ==> exists a, b :: GroupsFavourite(g, client, server, groups, a, b, choice.value)
    ensures choice.None? ==> forall c :: c in server ==> !Common(g, c, client)
  {
    hide Supported, Find;
    var l := Lists(server, Some(groups), client);
    match choice {
      case Some(c) =>
        var a: nat, b: nat, j: nat :| ChosenIn(g, l, a, b, j) && l.prio[j] == c;
        FavouriteOfGroup(g, client, server, groups, a, b, j);
      case None =>
        forall c | c in server
          ensures !Common(g, c, client)
        {
          var k :| 0 <= k < |server| && server[k] == c;
          assert !Usable(g, l, k);
        }
    }
  }

  lemma FavouriteOfGroup(g: Config, client: seq<Cipher>, server: seq<Cipher>, groups: seq<bool>, a: nat, b: nat, j: nat)
    requires |groups| == |server| && ChosenIn(g, Lists(server, Some(groups), client), a, b, j)
    ensures GroupsFavourite(g, client, server, groups, a, b, server[j])
  {
    hide Supported, Find;
    var l := Lists(server, Some(groups), client);
    var p := Place(l, j);
    forall k | 0 <= k < a
      ensures !Common(g, server[k], client)
    {
      assert !Usable(g, l, k);
    }
    forall q | 0 <= q < p
      ensures !Common(g, client[q], server[a..b + 1])
    {
      if Common(g, client[q], server[a..b + 1]) {
        var k :| 0 <= k < b + 1 - a && server[a..b + 1][k] == client[q];
        assert Usable(g, l, a + k);
        FindIsFirst(client, server[a + k]);
      }
    }
    assert server[j] == server[a..b + 1][j - a];
    assert forall k :: a <= k < b ==> (Continues(l, k) <==> groups[k]);
    assert a > 0 ==> !Continues(l, a - 1);
    assert !Continues(l, b);
    assert Usable(g, l, j) && 0 <= p < |client| && client[p] == server[j];
  }

  /** `ssl3_choose_cipher`, for a server list whose last group is closed: there is a choice if
      and only if some cipher is supported and in both lists. With server preference it is what
      the client names first in the server's first group that has such a cipher; without it,
      the first one the client names. */
  method Choose(g: Config, client: seq<Cipher>, server: seq<Cipher>, groups: seq<bool>, serverPreference: bool)
    returns (choice: Option<Cipher>)
    requires |groups| == |server| && Closed(ListsFor(client, server, groups, true))
    ensures choice.Some? && serverPreference ==>
              exists a, b :: GroupsFavourite(g, client, server, groups, a, b, choice.value)
    ensures choice.Some? && !serverPreference ==> ClientsFirst(g, client, server, choice.value)
    ensures choice.None? <==> forall c :: c in client && c in server ==> !Supported(g, c)
  {
    hide Supported, IsChoice, GroupsFavourite, ClientsFirst;
    var l := ListsFor(client, server, groups, serverPreference);
    choice := ChooseCipher(g, l);
    if serverPreference {
      ServerDecides(g, client, server, groups, choice);
    } else {
      ClientDecides(g, client, server, choice);
    }
    ChosenIsCommon(g, client, server, groups, serverPreference, choice);
  }

  lemma ChosenIsCommon(g: Config, client: seq<Cipher>, server: seq<Cipher>, groups: seq<bool>, serverPreference: bool,
                       choice: Option<Cipher>)
    requires |groups| == |server|
    requires choice.Some? && serverPreference ==>
               exists a, b :: GroupsFavourite(g, client, server, groups, a, b, choice.value)
    requires choice.Some? && !serverPreference ==> ClientsFirst(g, client, server, choice.value)
    ensures choice.Some? ==> choice.value in client && choice.value in server && Supported(g, choice.value)
  {
    hide Supported;
  }
}
