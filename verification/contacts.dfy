/**
 * The `Contact` value passed between the two screens, and the
 * name ordering the list screen displays it in.
 */
module Contacts {
  import opened Wrappers
  import opened StringOrder

  /**
   * A phone row of the contacts store. `id` is the data-row id (`None` for a
   * contact not yet persisted); equality is structural over all three fields,
   * like a Kotlin data class.
   */
  datatype Contact = Contact(id: Option<int>, name: string, phone: string)

  /** Every contact's name is `<=` the name of every later contact. */
  ghost predicate SortedByName(s: seq<Contact>)
  {
    forall i, j :: 0 <= i < j < |s| ==> LexLe(s[i].name, s[j].name)
  }

  /** The contacts of `s` whose name is exactly `k`, in their order in `s`. */
  function WithName(s: seq<Contact>, k: string): seq<Contact>
  {
    if |s| == 0 then []
    else (if s[0].name == k then [s[0]] else []) + WithName(s[1..], k)
  }

  /** Places `c` before the first contact whose name is not smaller than its own. */
  function InsertByName(c: Contact, s: seq<Contact>): seq<Contact>
  {
    if |s| == 0 then [c]
    else if LexLe(c.name, s[0].name) then [c] + s
    else [s[0]] + InsertByName(c, s[1..])
  }

  lemma {:induction false} InsertByNamePermutes(c: Contact, s: seq<Contact>)
    ensures multiset(InsertByName(c, s)) == multiset(s) + multiset{c}
  {
    if |s| > 0 && !LexLe(c.name, s[0].name) {
      InsertByNamePermutes(c, s[1..]);
      assert s == [s[0]] + s[1..];
    }
  }

  lemma {:induction false} InsertByNameOrdered(c: Contact, s: seq<Contact>)
    requires SortedByName(s)
    ensures SortedByName(InsertByName(c, s))
  {
    if |s| > 0 {
      if LexLe(c.name, s[0].name) {
        InsertFirstKeepsOrder(c, s);
      } else {
        var rest := InsertByName(c, s[1..]);
        InsertByNameOrdered(c, s[1..]);
        InsertByNamePermutes(c, s[1..]);
        InsertLaterKeepsOrder(c, s, rest);
      }
    }
  }

  /** When `c` goes after the head of `s`, the head stays in front of the rest. */
  lemma InsertLaterKeepsOrder(c: Contact, s: seq<Contact>, rest: seq<Contact>)
    requires SortedByName(s) && |s| > 0 && !LexLe(c.name, s[0].name)
    requires SortedByName(rest) && multiset(rest) == multiset(s[1..]) + multiset{c}
    ensures SortedByName([s[0]] + rest)
  {
    assert s == [s[0]] + s[1..];
    NotLexLeIsGreater(c.name, s[0].name);
    forall x | x in multiset(rest) ensures x == c || LexLe(s[0].name, x.name)
    {
      if x != c {
        assert x in s[1..];
      }
    }
    PrependKeepsOrder(s[0], rest, c);
  }

  lemma InsertFirstKeepsOrder(c: Contact, s: seq<Contact>)
    requires SortedByName(s) && |s| > 0 && LexLe(c.name, s[0].name)
    ensures SortedByName([c] + s)
  {
    var r := [c] + s;
    forall i, j | 0 <= i < j < |r| ensures LexLe(r[i].name, r[j].name)
    {
      if i == 0 && j > 1 {
        LexLeTransitive(c.name, s[0].name, s[j - 1].name);
      }
    }
  }

  /**
   * Putting `h`, which is not after `c` nor after anything in the sorted
   * `rest`, in front keeps `rest` sorted.
   */
  lemma PrependKeepsOrder(h: Contact, rest: seq<Contact>, c: Contact)
    requires SortedByName(rest)
    requires LexLe(h.name, c.name)
    requires forall x :: x in multiset(rest) ==> x == c || LexLe(h.name, x.name)
    ensures SortedByName([h] + rest)
  {
  }

  /**
   * Inserting `c` adds it in front of its namesakes and changes nothing
   * for any other name.
   */
  lemma {:induction false} InsertByNameWithName(c: Contact, s: seq<Contact>, k: string)
    ensures WithName(InsertByName(c, s), k) == (if c.name == k then [c] else []) + WithName(s, k)
  {
    if |s| == 0 {
      WithNameCons(c, [], k);
    } else if LexLe(c.name, s[0].name) {
      WithNameCons(c, s, k);
    } else {
      var rest := InsertByName(c, s[1..]);
      InsertByNameWithName(c, s[1..], k);
      WithNameCons(s[0], rest, k);
      WithNameCons(s[0], s[1..], k);
      assert s == [s[0]] + s[1..];
      NotLexLeIsGreater(c.name, s[0].name);
      if c.name == k {
        assert s[0].name != k;
      }
    }
  }

  lemma WithNameCons(x: Contact, t: seq<Contact>, k: string)
    ensures WithName([x] + t, k) == (if x.name == k then [x] else []) + WithName(t, k)
  {
  }

  /** A stable sort by name, as Kotlin's `sortedBy { it.name }`. */
  function SortByName(s: seq<Contact>): seq<Contact>
  {
    if |s| == 0 then [] else InsertByName(s[0], SortByName(s[1..]))
  }

  /** The sorted list is ordered by name. */
  lemma {:induction false} SortByNameOrdered(s: seq<Contact>)
    ensures SortedByName(SortByName(s))
  {
    if |s| > 0 {
      SortByNameOrdered(s[1..]);
      InsertByNameOrdered(s[0], SortByName(s[1..]));
    }
  }

  /** The sorted list holds exactly the contacts of the input, as often as the input does. */
  lemma {:induction false} SortByNamePermutes(s: seq<Contact>)
    ensures multiset(SortByName(s)) == multiset(s)
  {
    if |s| > 0 {
      SortByNamePermutes(s[1..]);
      InsertByNamePermutes(s[0], SortByName(s[1..]));
      assert s == [s[0]] + s[1..];
    }
  }

  /**
   * Stability: contacts with equal names keep their relative input order,
   * so sorting loses nothing and invents no order among namesakes.
   */
  lemma {:induction false} SortByNameStable(s: seq<Contact>, k: string)
    ensures WithName(SortByName(s), k) == WithName(s, k)
  {
    if |s| > 0 {
      SortByNameStable(s[1..], k);
      InsertByNameWithName(s[0], SortByName(s[1..]), k);
    }
  }

  /** Loading Bob before Ann displays Ann first. */
  lemma SortExample()
    ensures SortByName([Contact(Some(2), "Bob", "555"), Contact(Some(1), "Ann", "333")])
      == [Contact(Some(1), "Ann", "333"), Contact(Some(2), "Bob", "555")]
  {
  }

  /** The sorted list has exactly as many entries as the input. */
  lemma SortByNameLength(s: seq<Contact>)
    ensures |SortByName(s)| == |s|
  {
    SortByNamePermutes(s);
    assert |multiset(SortByName(s))| == |multiset(s)|;
  }
}
