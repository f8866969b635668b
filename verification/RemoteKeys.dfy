/** The key that groups events by contact. */
module RemoteKeys {
  import opened Seqs
  import opened Tables
  import opened Fields
  import opened Select

  function Abook(row: Row): Option<string> {
    if row.remote.None? then None else row.remote.value.abookUid
  }

  /** The contact an event is of, as the library means it: the address book entry; for anyone else the account and the
      remote uid; nobody in particular when one of these is missing. */
  datatype Contact = InBook(abook: string) | Stranger(account: string, remote: string) | Nobody

  function ContactOf(row: Row): Contact {
    match (Abook(row), row.event.localUid, row.event.remoteUid)
    case (Some(a), _, _) => InBook(a)
    case (None, Some(l), Some(r)) => Stranger(l, r)
    case _ => Nobody
  }

  /** Some remote uids of accounts l1 and l2 give the same text: one account is the beginning of the other, up to a ';'.
      */
  predicate Clashing(l1: string, l2: string) {
    l1 + ";" <= l2 || l2 + ";" <= l1
  }

  /** Account l2 begins with l1 and a ';', and r1 holds what l2 has more. */
  predicate Overlaps(l1: string, r1: string, l2: string, r2: string) {
    l1 + ";" <= l2 && r1 == l2[|l1| + 1..] + (";" + r2)
  }

  lemma OverlapsText(l1: string, r1: string, l2: string, r2: string)
    requires |l1| < |l2|
    ensures l1 + ";" + r1 == l2 + ";" + r2 <==> Overlaps(l1, r1, l2, r2)
  {
    var a, b, head := l1 + ";" + r1, l2 + ";" + r2, l1 + ";";
    assert b[..|l1| + 1] == l2[..|l1| + 1] && a[..|l1| + 1] == head;
    assert b[|l1| + 1..] == l2[|l1| + 1..] + (";" + r2) && a[|l1| + 1..] == r1;
    assert a == a[..|l1| + 1] + a[|l1| + 1..] && b == b[..|l1| + 1] + b[|l1| + 1..];
    assert head <= l2 <==> l2[..|l1| + 1] == head;
  }

  lemma SameLengthText(l1: string, r1: string, l2: string, r2: string)
    requires |l1| == |l2|
    ensures l1 + ";" + r1 == l2 + ";" + r2 <==> l1 == l2 && r1 == r2
  {
    var a, b := l1 + ";" + r1, l2 + ";" + r2;
    assert a[..|l1|] == l1 && b[..|l2|] == l2;
    assert a[|l1| + 1..] == r1 && b[|l2| + 1..] == r2;
  }

  /** Account, ';' and remote uid of two pairs read the same exactly when the pairs are equal or overlap. */
  lemma SameTextExactly(l1: string, r1: string, l2: string, r2: string)
    ensures l1 + ";" + r1 == l2 + ";" + r2 <==>
            (l1 == l2 && r1 == r2) || Overlaps(l1, r1, l2, r2) || Overlaps(l2, r2, l1, r1)
  {
    if |l1| < |l2| {
      OverlapsText(l1, r1, l2, r2);
    } else if |l2| < |l1| {
      OverlapsText(l2, r2, l1, r1);
    } else {
      SameLengthText(l1, r1, l2, r2);
    }
  }

  lemma InBookKey(row: Row)
    requires ContactOf(row).InBook?
    ensures UniqueRemote(row).Some? && UniqueRemote(row).value[0] == 'a'
            && UniqueRemote(row).value[3..] == ContactOf(row).abook
  {
    assert ("ab:" + ContactOf(row).abook)[3..] == ContactOf(row).abook;
  }

  lemma StrangerKey(row: Row)
    requires ContactOf(row).Stranger?
    ensures UniqueRemote(row).Some?
    ensures UniqueRemote(row).value == "lr:" + (ContactOf(row).account + ";" + ContactOf(row).remote)
    ensures UniqueRemote(row).value[0] == 'l'
    ensures UniqueRemote(row).value[3..] == ContactOf(row).account + ";" + ContactOf(row).remote
  {
    var c := ContactOf(row);
    Regroup("lr:", c.account, ";", c.remote);
    Regroup(c.account, ";", c.remote, "");
    var rest := c.account + ";" + c.remote;
    assert ("lr:" + rest)[3..] == rest;
  }

  predicate Confused(c: Contact, d: Contact) {
    c.Stranger? && d.Stranger? &&
    (Overlaps(c.account, c.remote, d.account, d.remote) || Overlaps(d.account, d.remote, c.account, c.remote))
  }

  /** For all events, NULLs and every account included: two events fall into one class exactly when they are of the same
      contact, or of two strangers whose accounts and remote uids overlap. */
  lemma SameKeyExactly(a: Row, b: Row)
    ensures UniqueRemote(a) == UniqueRemote(b) <==> ContactOf(a) == ContactOf(b) || Confused(ContactOf(a), ContactOf(b))
  {
    var c, d := ContactOf(a), ContactOf(b);
    if c.InBook? { InBookKey(a); }
    if d.InBook? { InBookKey(b); }
    if c.Stranger? { StrangerKey(a); }
    if d.Stranger? { StrangerKey(b); }
    if c.Stranger? && d.Stranger? { SameTextExactly(c.account, c.remote, d.account, d.remote); }
  }

  lemma OverlapsClash(l1: string, l2: string)
    ensures Clashing(l1, l2) <==> exists r1, r2 :: Overlaps(l1, r1, l2, r2) || Overlaps(l2, r2, l1, r1)
  {
    if l1 + ";" <= l2 {
      assert Overlaps(l1, l2[|l1| + 1..] + (";" + ""), l2, "");
    } else if l2 + ";" <= l1 {
      assert Overlaps(l2, l1[|l2| + 1..] + (";" + ""), l1, "");
    }
  }

  /** The account of the event, if it has one, is among these. */
  predicate From(row: Row, accounts: set<string>) {
    row.event.localUid.Some? ==> row.event.localUid.value in accounts
  }

  /** Whatever the events of these accounts, the classes are the contacts. */
  ghost predicate TellsApart(accounts: set<string>) {
    forall a: Row, b: Row :: From(a, accounts) && From(b, accounts) ==>
      (UniqueRemote(a) == UniqueRemote(b) <==> ContactOf(a) == ContactOf(b))
  }

  function StrangerRow(l: string, r: string): (row: Row)
    ensures ContactOf(row) == Stranger(l, r) && row.event.localUid == Some(l)
  {
    Row(Event(1, 1, 1, 0, 0, 0, 0, 0, 0, 0, 0, Some(l), None, Some(r), None, None, None), "", "", None, None)
  }

  /** Grouping by contact tells contacts apart, for all events of a set of accounts, if and only if no account begins
      with another one of them followed by ';'. */
  lemma TellsApartExactly(accounts: set<string>)
    ensures TellsApart(accounts) <==> forall l1, l2 :: l1 in accounts && l2 in accounts ==> !Clashing(l1, l2)
  {
    if l1, l2 :| l1 in accounts && l2 in accounts && Clashing(l1, l2) {
      OverlapsClash(l1, l2);
      var r1, r2 :| Overlaps(l1, r1, l2, r2) || Overlaps(l2, r2, l1, r1);
      var a, b := StrangerRow(l1, r1), StrangerRow(l2, r2);
      SameKeyExactly(a, b);
      assert |l1| != |l2|;
      assert From(a, accounts) && From(b, accounts) && ContactOf(a) != ContactOf(b)
             && UniqueRemote(a) == UniqueRemote(b);
    } else {
      forall a: Row, b: Row | From(a, accounts) && From(b, accounts)
        ensures UniqueRemote(a) == UniqueRemote(b) <==> ContactOf(a) == ContactOf(b)
      {
        SameKeyExactly(a, b);
        if Confused(ContactOf(a), ContactOf(b)) {
          OverlapsClash(ContactOf(a).account, ContactOf(b).account);
        }
      }
    }
  }

  /** Accounts without ';', the case the library has in mind. */
  lemma PlainAccountsTellApart(accounts: set<string>)
    requires forall l :: l in accounts ==> ';' !in l
    ensures TellsApart(accounts)
  {
    forall l1, l2 | l1 in accounts && l2 in accounts ensures !Clashing(l1, l2) {
      assert (l1 + ";")[|l1|] == ';' && (l2 + ";")[|l2|] == ';';
      assert forall k :: 0 <= k < |l1| ==> l1[k] in l1;
      assert forall k :: 0 <= k < |l2| ==> l2[k] in l2;
    }
    TellsApartExactly(accounts);
  }

  /** The classes of GROUP_BY_CONTACT: one per contact, strangers that overlap aside. */
  lemma ContactClasses(a: Row, b: Row)
    ensures KeyOf(ByContact)(a) == KeyOf(ByContact)(b) <==>
            ContactOf(a) == ContactOf(b) || Confused(ContactOf(a), ContactOf(b))
  {
    SameKeyExactly(a, b);
  }

  /** The classes of GROUP_BY_UIDS: one per stored contact, and one of all events without. */
  lemma UidsClasses(a: Row, b: Row)
    ensures KeyOf(ByUids)(a) == KeyOf(ByUids)(b) <==>
            if a.remote.None? || b.remote.None? then a.remote.None? && b.remote.None?
            else
              && a.remote.value.localUid == b.remote.value.localUid
              && a.remote.value.remoteUid == b.remote.value.remoteUid
  {
  }
}
