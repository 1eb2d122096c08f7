/** The sort selector: an option string picks one of four name comparators,
    and anything else leaves the list as it is.  `localeCompare` is modelled
    as lexicographic comparison of characters and `Array.prototype.sort` as
    a stable insertion sort driven by the comparator. */
module SortContacts {
  import opened ContactTypes

  /** The name comparison: negative, zero or positive as `s` sorts before,
      with, or after `t`. */
  function Compare(s: string, t: string): (r: int)
    ensures -1 <= r <= 1
  {
    if s == [] && t == [] then 0
    else if s == [] then -1
    else if t == [] then 1
    else if s[0] < t[0] then -1
    else if s[0] > t[0] then 1
    else Compare(s[1..], t[1..])
  }

  lemma {:induction false} CompareAntisymmetric(s: string, t: string)
    ensures Compare(t, s) == -Compare(s, t)
  {
    if s != [] && t != [] && s[0] == t[0] {
      CompareAntisymmetric(s[1..], t[1..]);
    }
  }

  lemma {:induction false} CompareZeroMeansEqual(s: string, t: string)
    ensures Compare(s, t) == 0 <==> s == t
  {
    if s != [] && t != [] && s[0] == t[0] {
      CompareZeroMeansEqual(s[1..], t[1..]);
      assert s == [s[0]] + s[1..] && t == [t[0]] + t[1..];
    }
  }

  lemma {:induction false} CompareTransitive(a: string, b: string, c: string)
    requires Compare(a, b) <= 0 && Compare(b, c) <= 0
    ensures Compare(a, c) <= 0
  {
    if a != [] && b != [] && c != [] && a[0] == b[0] && b[0] == c[0] {
      CompareTransitive(a[1..], b[1..], c[1..]);
    }
  }

  datatype SortKey = FirstNameAsc | FirstNameDesc | LastNameAsc | LastNameDesc

  /** The option's meaning: an absent or empty option selects no sort, each
      of the four labels selects its key, and any other string selects none. */
  function ParseSortOption(option: Option<string>): (k: Option<SortKey>)
    ensures option == None || option == Some("") ==> k == None
  {
    match option
    case None => None
    case Some(s) =>
      if s == "" then None
      else if s == "firstNameAsc" then Some(FirstNameAsc)
      else if s == "firstNameDesc" then Some(FirstNameDesc)
      else if s == "lastNameAsc" then Some(LastNameAsc)
      else if s == "lastNameDesc" then Some(LastNameDesc)
      else None
  }

  /** The comparator each case passes to `sort`; the descending cases swap
      the arguments. */
  function Comparator(k: SortKey, x: Contact, y: Contact): int {
    match k
    case FirstNameAsc => Compare(x.firstName, y.firstName)
    case FirstNameDesc => Compare(y.firstName, x.firstName)
    case LastNameAsc => Compare(x.lastName, y.lastName)
    case LastNameDesc => Compare(y.lastName, x.lastName)
  }

  /** The name a sort key orders by. */
  function Name(k: SortKey, c: Contact): string {
    if k == FirstNameAsc || k == FirstNameDesc then c.firstName else c.lastName
  }

  predicate Ascending(k: SortKey) {
    k == FirstNameAsc || k == LastNameAsc
  }

  /** `x` may stand before `y`: the comparator does not ask to swap them. */
  predicate InOrder(k: SortKey, x: Contact, y: Contact) {
    Comparator(k, x, y) <= 0
  }

  predicate Sorted(k: SortKey, s: seq<Contact>) {
    forall i, j :: 0 <= i < j < |s| ==> InOrder(k, s[i], s[j])
  }

  lemma InOrderTotal(k: SortKey, x: Contact, y: Contact)
    ensures InOrder(k, x, y) || InOrder(k, y, x)
  {
    CompareAntisymmetric(Name(k, x), Name(k, y));
  }

  lemma InOrderTransitive(k: SortKey, x: Contact, y: Contact, z: Contact)
    requires InOrder(k, x, y) && InOrder(k, y, z)
    ensures InOrder(k, x, z)
  {
    if Ascending(k) {
      CompareTransitive(Name(k, x), Name(k, y), Name(k, z));
    } else {
      CompareTransitive(Name(k, z), Name(k, y), Name(k, x));
    }
  }

  /** Both orders hold only between contacts with the same name. */
  lemma InOrderBothWays(k: SortKey, x: Contact, y: Contact)
    requires InOrder(k, x, y) && InOrder(k, y, x)
    ensures Name(k, x) == Name(k, y)
  {
    CompareAntisymmetric(Name(k, x), Name(k, y));
    CompareZeroMeansEqual(Name(k, x), Name(k, y));
  }

  /** Places `x` before the first element it may precede, so that `x` stays
      ahead of the equal elements that came after it in the input. */
  function Insert(k: SortKey, x: Contact, r: seq<Contact>): (res: seq<Contact>)
    ensures multiset(res) == multiset(r) + multiset{x}
  {
    if r == [] then [x]
    else if InOrder(k, x, r[0]) then [x] + r
    else
      assert r == [r[0]] + r[1..];
      [r[0]] + Insert(k, x, r[1..])
  }

  lemma SortedTail(k: SortKey, s: seq<Contact>)
    requires Sorted(k, s) && s != []
    ensures Sorted(k, s[1..])
  {
    var tail := s[1..];
    forall i, j | 0 <= i < j < |tail| ensures InOrder(k, tail[i], tail[j]) {
      assert tail[i] == s[i + 1] && tail[j] == s[j + 1];
    }
  }

  lemma SortedCons(k: SortKey, y: Contact, t: seq<Contact>)
    requires Sorted(k, t)
    requires forall j :: 0 <= j < |t| ==> InOrder(k, y, t[j])
    ensures Sorted(k, [y] + t)
  {
    var res := [y] + t;
    forall i, j | 0 <= i < j < |res| ensures InOrder(k, res[i], res[j]) {
      assert res[j] == t[j - 1];
      if i > 0 {
        assert res[i] == t[i - 1];
      }
    }
  }

  lemma {:induction false} InsertSorted(k: SortKey, x: Contact, r: seq<Contact>)
    requires Sorted(k, r)
    ensures Sorted(k, Insert(k, x, r))
  {
    if r == [] {
    } else if InOrder(k, x, r[0]) {
      forall j | 0 <= j < |r| ensures InOrder(k, x, r[j]) {
        if j > 0 { InOrderTransitive(k, x, r[0], r[j]); }
      }
      SortedCons(k, x, r);
    } else {
      var tail := r[1..];
      SortedTail(k, r);
      InsertSorted(k, x, tail);
      var rest := Insert(k, x, tail);
      forall j | 0 <= j < |rest| ensures InOrder(k, r[0], rest[j]) {
        assert rest[j] in multiset(rest);
        if rest[j] == x {
          InOrderTotal(k, x, r[0]);
        } else {
          assert rest[j] in multiset(tail);
          var i :| 0 <= i < |tail| && tail[i] == rest[j];
          assert r[i + 1] == rest[j];
        }
      }
      SortedCons(k, r[0], rest);
    }
  }

  /** A sorted copy of `s` under the comparator of key `k`. */
  function SortBy(k: SortKey, s: seq<Contact>): (r: seq<Contact>)
    ensures multiset(r) == multiset(s)
    ensures |r| == |s|
    ensures Sorted(k, r)
  {
    if s == [] then []
    else
      assert s == [s[0]] + s[1..];
      InsertSorted(k, s[0], SortBy(k, s[1..]));
      Insert(k, s[0], SortBy(k, s[1..]))
  }

  /** The sort selector: the option picks a key, or leaves the list alone. */
  function SortContacts(contacts: seq<Contact>, sortOption: Option<string>): (r: seq<Contact>)
    ensures ParseSortOption(sortOption) == None ==> r == contacts
    ensures ParseSortOption(sortOption).Some? ==>
      multiset(r) == multiset(contacts) && Sorted(ParseSortOption(sortOption).value, r)
  {
    match ParseSortOption(sortOption)
    case None => contacts
    case Some(k) => SortBy(k, contacts)
  }

  /** Null, empty and unknown options hand the input back untouched. */
  lemma UnselectedOptionsKeepOrder(contacts: seq<Contact>)
    ensures SortContacts(contacts, None) == contacts
    ensures SortContacts(contacts, Some("")) == contacts
    ensures SortContacts(contacts, Some("invalidOption")) == contacts
  {
  }

  lemma SortEmpty(k: SortKey)
    ensures SortBy(k, []) == []
  {
  }

  /** Ascending keys give a list non-decreasing by the name; descending keys
      give one non-increasing by it. */
  lemma SortedByName(k: SortKey, s: seq<Contact>, i: int, j: int)
    requires Sorted(k, s) && 0 <= i < j < |s|
    ensures Ascending(k) ==> Compare(Name(k, s[i]), Name(k, s[j])) <= 0
    ensures !Ascending(k) ==> Compare(Name(k, s[j]), Name(k, s[i])) <= 0
  {
    assert InOrder(k, s[i], s[j]);
  }

  /** Sorting a list that is already in order returns it unchanged, so
      sorting twice is sorting once. */
  lemma {:induction false} SortSortedIsIdentity(k: SortKey, s: seq<Contact>)
    requires Sorted(k, s)
    ensures SortBy(k, s) == s
  {
    if s != [] {
      SortedTail(k, s);
      SortSortedIsIdentity(k, s[1..]);
      SortedHead(k, s);
      SortInFront(k, s);
    }
  }

  lemma SortedHead(k: SortKey, s: seq<Contact>)
    requires Sorted(k, s) && s != []
    ensures s[1..] != [] ==> InOrder(k, s[0], s[1..][0])
  {
    if |s| > 1 {
      assert InOrder(k, s[0], s[1]);
    }
  }

  /** A head that belongs before the head of a tail that sorting leaves
      alone stays in front. */
  lemma SortInFront(k: SortKey, s: seq<Contact>)
    requires s != [] && SortBy(k, s[1..]) == s[1..]
    requires s[1..] != [] ==> InOrder(k, s[0], s[1..][0])
    ensures SortBy(k, s) == s
  {
    assert s == [s[0]] + s[1..];
  }

  lemma SortIdempotent(k: SortKey, s: seq<Contact>)
    ensures SortBy(k, SortBy(k, s)) == SortBy(k, s)
  {
    SortSortedIsIdentity(k, SortBy(k, s));
  }

  /** Within the multiset `m`, the name under `k` identifies the contact. */
  ghost predicate NamesIdentify(k: SortKey, m: multiset<Contact>) {
    forall x, y :: x in m && y in m && Name(k, x) == Name(k, y) ==> x == y
  }

  lemma NamesIdentifySub(k: SortKey, m: multiset<Contact>, sub: multiset<Contact>)
    requires NamesIdentify(k, m) && sub <= m
    ensures NamesIdentify(k, sub)
  {
  }

  /** Two sorted arrangements of the same contacts start with the same one. */
  lemma SortedHeadsEqual(k: SortKey, r1: seq<Contact>, r2: seq<Contact>)
    requires multiset(r1) == multiset(r2) && NamesIdentify(k, multiset(r1))
    requires Sorted(k, r1) && Sorted(k, r2) && r1 != [] && r2 != []
    ensures r1[0] == r2[0]
  {
    var h1, h2 := r1[0], r2[0];
    assert h1 in multiset(r2);
    var j :| 0 <= j < |r2| && r2[j] == h1;
    assert h2 in multiset(r1);
    var i :| 0 <= i < |r1| && r1[i] == h2;
    if i > 0 && j > 0 {
      assert InOrder(k, h1, h2) && InOrder(k, h2, h1);
      InOrderBothWays(k, h1, h2);
    }
  }

  lemma TailMultiset(r: seq<Contact>)
    requires r != []
    ensures multiset(r[1..]) == multiset(r) - multiset{r[0]}
  {
    assert r == [r[0]] + r[1..];
  }

  /** When names identify contacts, a list has only one sorted arrangement. */
  lemma {:induction false} SortedArrangementUnique(k: SortKey, r1: seq<Contact>, r2: seq<Contact>)
    requires multiset(r1) == multiset(r2) && NamesIdentify(k, multiset(r1))
    requires Sorted(k, r1) && Sorted(k, r2)
    ensures r1 == r2
    decreases |r1|
  {
    assert |r1| == |multiset(r1)| == |r2|;
    if r1 != [] {
      SortedTails(k, r1, r2);
      SortedArrangementUnique(k, r1[1..], r2[1..]);
      assert r1 == [r1[0]] + r1[1..] && r2 == [r2[0]] + r2[1..];
    }
  }

  /** The step of SortedArrangementUnique: equal heads, and tails that
      again satisfy its preconditions. */
  lemma SortedTails(k: SortKey, r1: seq<Contact>, r2: seq<Contact>)
    requires multiset(r1) == multiset(r2) && NamesIdentify(k, multiset(r1))
    requires Sorted(k, r1) && Sorted(k, r2) && r1 != [] && r2 != []
    ensures r1[0] == r2[0] && multiset(r1[1..]) == multiset(r2[1..])
    ensures NamesIdentify(k, multiset(r1[1..]))
    ensures Sorted(k, r1[1..]) && Sorted(k, r2[1..])
  {
    SortedHeadsEqual(k, r1, r2);
    TailMultiset(r1);
    TailMultiset(r2);
    NamesIdentifySub(k, multiset(r1), multiset(r1[1..]));
    SortedTail(k, r1);
    SortedTail(k, r2);
  }

  function Reverse(s: seq<Contact>): (r: seq<Contact>)
    ensures |r| == |s| && forall i :: 0 <= i < |s| ==> r[i] == s[|s| - 1 - i]
  {
    if s == [] then [] else Reverse(s[1..]) + [s[0]]
  }

  lemma {:induction false} ReverseMultiset(s: seq<Contact>)
    ensures multiset(Reverse(s)) == multiset(s)
  {
    if s != [] {
      ReverseMultiset(s[1..]);
      assert s == [s[0]] + s[1..];
    }
  }

  /** No two contacts of `s` share the first name. */
  predicate DistinctFirstNames(s: seq<Contact>) {
    forall i, j :: 0 <= i < j < |s| ==> s[i].firstName != s[j].firstName
  }

  lemma DistinctFirstNamesIdentify(s: seq<Contact>)
    requires DistinctFirstNames(s)
    ensures NamesIdentify(FirstNameDesc, multiset(s))
  {
    forall x, y | x in multiset(s) && y in multiset(s) && Name(FirstNameDesc, x) == Name(FirstNameDesc, y)
      ensures x == y
    {
      var i :| 0 <= i < |s| && s[i] == x;
      var j :| 0 <= j < |s| && s[j] == y;
      assert !(i < j) && !(j < i);
    }
  }

  /** Reversing a list sorted ascending by first name sorts it descending. */
  lemma ReversedAscIsDesc(asc: seq<Contact>)
    requires Sorted(FirstNameAsc, asc)
    ensures Sorted(FirstNameDesc, Reverse(asc))
  {
    var rev := Reverse(asc);
    forall i, j | 0 <= i < j < |rev| ensures InOrder(FirstNameDesc, rev[i], rev[j]) {
      assert InOrder(FirstNameAsc, asc[|asc| - 1 - j], asc[|asc| - 1 - i]);
    }
  }

  /** For a list with distinct first names, the descending sort is exactly
      the ascending sort reversed. */
  lemma FirstNameDescIsReversedAsc(s: seq<Contact>)
    requires DistinctFirstNames(s)
    ensures SortBy(FirstNameDesc, s) == Reverse(SortBy(FirstNameAsc, s))
  {
    var asc := SortBy(FirstNameAsc, s);
    ReverseMultiset(asc);
    DistinctFirstNamesIdentify(s);
    ReversedAscIsDesc(asc);
    SortedArrangementUnique(FirstNameDesc, SortBy(FirstNameDesc, s), Reverse(asc));
  }
}
