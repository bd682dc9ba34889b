/** The delete page: its session state, the split of the collections into regular and
    multi-tenant ones, the first-letter grouping of the regular ones, the selection check boxes
    and the two delete buttons. The widgets are inputs: whether a button was pressed and what
    each check box shows. The delete calls are functions answering whether they succeeded. */
module DeletePage {
  import opened Basics
  import opened Text
  import opened CollectionData

  // ---------------------------------------------------------------------------------------------
  // Regular collections and their grouping by first letter

  function NotMultiTenant(mtCollections: map<string, seq<string>>): string -> bool {
    c => c !in mtCollections
  }

  /** The regular collections: those of the list without an entry in mt_collections, in list
      order. */
  function Regular(collectionsList: seq<string>, mtCollections: map<string, seq<string>>): (r: seq<string>)
    ensures forall c :: c in r <==> c in collectionsList && c !in mtCollections
  {
    Filter(collectionsList, NotMultiTenant(mtCollections))
  }

  /** `col[0].upper()` as a one-character string; the empty name, on which Python raises, has
      none. */
  function FirstLetter(c: string): string {
    if c == [] then [] else [UpperAscii(c[0])]
  }

  function HasLetter(letter: string): string -> bool {
    c => FirstLetter(c) == letter
  }

  /** The keys of collections_by_letter, in the order the loop adds them. */
  function Letters(regular: seq<string>): seq<string> {
    Dedupe(MapSeq(regular, FirstLetter))
  }

  /** The regular collections with the given first letter, in order. */
  function Bucket(regular: seq<string>, letter: string): seq<string> {
    Filter(regular, HasLetter(letter))
  }

  lemma FilterNone<T(!new)>(s: seq<T>, p: T -> bool)
    requires forall x :: x in s ==> !p(x)
    ensures Filter(s, p) == []
  {
    if Filter(s, p) != [] {
      assert Filter(s, p)[0] in Filter(s, p);
    }
  }

  /** A letter is a key exactly when some collection starts with it. */
  lemma LettersMembers(s: seq<string>, l: string)
    ensures l in Letters(s) <==> exists x :: x in s && FirstLetter(x) == l
  {
    if exists x :: x in s && FirstLetter(x) == l {
      var x :| x in s && FirstLetter(x) == l;
      var i :| 0 <= i < |s| && s[i] == x;
      assert MapSeq(s, FirstLetter)[i] == l;
    }
  }

  /** One more collection adds its letter as the last key when it is new. */
  lemma LettersStep(s: seq<string>, c: string)
    ensures Letters(s + [c]) == if FirstLetter(c) in Letters(s) then Letters(s) else Letters(s) + [FirstLetter(c)]
  {
    MapSeqConcat(s, [c], FirstLetter);
    assert MapSeq([c], FirstLetter) == [FirstLetter(c)];
    DedupeAppend(MapSeq(s, FirstLetter), FirstLetter(c));
  }

  /** collections_by_letter after the grouping loop has seen `s`. */
  function BucketMap(s: seq<string>): map<string, seq<string>>
    decreases |s|
  {
    if s == [] then map[]
    else
      var m, c := BucketMap(s[..|s| - 1]), s[|s| - 1];
      var l := FirstLetter(c);
      m[l := (if l in m then m[l] else []) + [c]]
  }

  lemma BucketMapStep(s: seq<string>, i: nat)
    requires i < |s|
    ensures var m, l := BucketMap(s[..i]), FirstLetter(s[i]);
      BucketMap(s[..i + 1]) == m[l := (if l in m then m[l] else []) + [s[i]]]
  {
    assert s[..i + 1][..i] == s[..i];
  }

  /** A letter is a key exactly when some collection starts with it, and its list holds those
      collections in order. */
  lemma {:induction false} BucketMapAt(s: seq<string>, l: string)
    ensures l in BucketMap(s) <==> l in Letters(s)
    ensures l in BucketMap(s) ==> BucketMap(s)[l] == Bucket(s, l)
    decreases |s|
  {
    LettersMembers(s, l);
    if s != [] {
      var t, c := s[..|s| - 1], s[|s| - 1];
      assert s == t + [c];
      BucketMapAt(t, l);
      LettersMembers(t, l);
      FilterAppend(t, c, HasLetter(l));
      if FirstLetter(c) == l && l !in BucketMap(t) {
        FilterNone(t, HasLetter(l));
      }
    }
  }

  /** The grouping loop: each regular collection appended to the list of its first letter. */
  method BucketByLetter(regular: seq<string>) returns (collectionsByLetter: map<string, seq<string>>, letters: seq<string>)
    requires forall c :: c in regular ==> c != []
    ensures letters == Letters(regular)
    ensures forall l :: l in collectionsByLetter <==> l in letters
    ensures forall l :: l in collectionsByLetter ==> collectionsByLetter[l] == Bucket(regular, l)
  {
    collectionsByLetter := map[];
    letters := [];
    for i := 0 to |regular|
      invariant collectionsByLetter == BucketMap(regular[..i])
      invariant letters == Letters(regular[..i])
    {
      var col := regular[i];
      assert col in regular;
      var firstLetter := [UpperAscii(col[0])];
      assert regular[..i + 1] == regular[..i] + [col];
      BucketMapStep(regular, i);
      BucketMapAt(regular[..i], firstLetter);
      LettersStep(regular[..i], col);
      if firstLetter !in collectionsByLetter {
        UpdateTwice(collectionsByLetter, firstLetter, [], [] + [col]);
        collectionsByLetter := collectionsByLetter[firstLetter := []];
        letters := letters + [firstLetter];
      }
      collectionsByLetter := collectionsByLetter[firstLetter := collectionsByLetter[firstLetter] + [col]];
    }
    assert regular[..|regular|] == regular;
    forall l
      ensures l in collectionsByLetter <==> l in letters
      ensures l in collectionsByLetter ==> collectionsByLetter[l] == Bucket(regular, l)
    {
      BucketMapAt(regular, l);
    }
  }

  /** Every collection lands in the list of its own first letter and in no other, and a list
      holds only collections that start with its letter. */
  lemma BucketsPartition(regular: seq<string>, c: string)
    ensures c in regular ==> FirstLetter(c) in Letters(regular) && c in Bucket(regular, FirstLetter(c))
    ensures forall l :: c in Bucket(regular, l) ==> c in regular && l == FirstLetter(c)
  {
    LettersMembers(regular, FirstLetter(c));
  }

  function SortedBucket(regular: seq<string>): string -> seq<string> {
    l => SortStrings(Bucket(regular, l))
  }

  /** The order of the check boxes: the letters in sorted order, and within a letter its
      collections sorted. */
  function VisitOrder(regular: seq<string>): seq<string> {
    FlatMap(SortStrings(Letters(regular)), SortedBucket(regular))
  }

  lemma SortedMembers(s: seq<string>, x: string)
    ensures x in SortStrings(s) <==> x in s
  {
    assert x in SortStrings(s) <==> x in multiset(SortStrings(s));
  }

  /** Every regular collection gets a check box, and nothing else does. */
  lemma VisitOrderMembers(regular: seq<string>, c: string)
    ensures c in VisitOrder(regular) <==> c in regular
  {
    var letters := SortStrings(Letters(regular));
    FlatMapMembers(letters, SortedBucket(regular), c);
    BucketsPartition(regular, c);
    if c in regular {
      var l := FirstLetter(c);
      SortedMembers(Letters(regular), l);
      SortedMembers(Bucket(regular, l), c);
      assert l in letters && c in SortedBucket(regular)(l);
    }
    if c in VisitOrder(regular) {
      var l :| l in letters && c in SortedBucket(regular)(l);
      SortedMembers(Bucket(regular, l), c);
    }
  }

  // ---------------------------------------------------------------------------------------------
  // The rebuild of the lists

  function HasTenants(tenantsOf: string -> Answer<seq<(string, Tenant)>>): string -> bool {
    c => TenantNames(tenantsOf(c)) != []
  }

  /** The keys of mt_collections in the order the rebuild adds them. */
  function MtOrder(collections: seq<string>, tenantsOf: string -> Answer<seq<(string, Tenant)>>): seq<string> {
    Dedupe(Filter(collections, HasTenants(tenantsOf)))
  }

  /** The entry the rebuild writes for a collection: its tenant names sorted, when it has any. */
  function MtEntry(tenantsOf: string -> Answer<seq<(string, Tenant)>>): string -> Option<(string, seq<string>)> {
    c => var tenants := TenantNames(tenantsOf(c));
      if tenants != [] then Some((c, SortStrings(tenants))) else None
  }

  /** mt_collections after the rebuild loop over `collections`. */
  function MtMap(collections: seq<string>, tenantsOf: string -> Answer<seq<(string, Tenant)>>): map<string, seq<string>> {
    CollectMap(collections, MtEntry(tenantsOf))
  }

  /** A collection has an entry exactly when it is listed and has tenants, and the entry holds
      its tenant names sorted. */
  lemma MtMapMembers(collections: seq<string>, tenantsOf: string -> Answer<seq<(string, Tenant)>>, k: string)
    ensures k in MtMap(collections, tenantsOf) <==> k in collections && HasTenants(tenantsOf)(k)
    ensures k in MtMap(collections, tenantsOf) ==> MtMap(collections, tenantsOf)[k] == SortStrings(TenantNames(tenantsOf(k)))
  {
    CollectMapMembers(collections, MtEntry(tenantsOf), k);
  }

  lemma MtStep(s: seq<string>, c: string, tenantsOf: string -> Answer<seq<(string, Tenant)>>)
    ensures MtOrder(s + [c], tenantsOf) ==
      if HasTenants(tenantsOf)(c) && c !in MtMap(s, tenantsOf) then MtOrder(s, tenantsOf) + [c] else MtOrder(s, tenantsOf)
    ensures MtMap(s + [c], tenantsOf) ==
      if HasTenants(tenantsOf)(c) then MtMap(s, tenantsOf)[c := SortStrings(TenantNames(tenantsOf(c)))] else MtMap(s, tenantsOf)
    ensures forall k :: k in MtMap(s, tenantsOf) <==> k in MtOrder(s, tenantsOf)
  {
    FilterAppend(s, c, HasTenants(tenantsOf));
    DedupeAppend(Filter(s, HasTenants(tenantsOf)), c);
    CollectMapStep(s + [c], MtEntry(tenantsOf), |s|);
    assert (s + [c])[..|s|] == s;
    MtKeys(s, tenantsOf);
  }

  lemma MtKeys(s: seq<string>, tenantsOf: string -> Answer<seq<(string, Tenant)>>)
    ensures forall k :: k in MtMap(s, tenantsOf) <==> k in MtOrder(s, tenantsOf)
    ensures NoDuplicates(MtOrder(s, tenantsOf))
  {
    forall k
      ensures k in MtMap(s, tenantsOf) <==> k in MtOrder(s, tenantsOf)
    {
      MtMapMembers(s, tenantsOf, k);
    }
  }

  /** The rebuild loop of get_all_collections_and_tenants: for each collection in order, its
      sorted tenant names stored when it has any. */
  method RebuildMt(collections: seq<string>, tenantsOf: string -> Answer<seq<(string, Tenant)>>)
    returns (mtCollections: map<string, seq<string>>, mtOrder: seq<string>)
    ensures mtCollections == MtMap(collections, tenantsOf)
    ensures mtOrder == MtOrder(collections, tenantsOf)
  {
    mtCollections := map[];
    mtOrder := [];
    for i := 0 to |collections|
      invariant mtCollections == MtMap(collections[..i], tenantsOf)
      invariant mtOrder == MtOrder(collections[..i], tenantsOf)
    {
      var collection := collections[i];
      assert collections[..i + 1] == collections[..i] + [collection];
      MtStep(collections[..i], collection, tenantsOf);
      var tenants := TenantNames(tenantsOf(collection));
      if tenants != [] {
        if collection !in mtCollections {
          mtOrder := mtOrder + [collection];
        }
        mtCollections := mtCollections[collection := SortStrings(tenants)];
      }
    }
    assert collections[..|collections|] == collections;
  }

  /** Where the page lists each collection after the rebuild: multi-tenant exactly when the
      client lists tenants for it, regular otherwise, and the regular ones in sorted order. */
  lemma RebuildPartition(names: seq<string>, tenantsOf: string -> Answer<seq<(string, Tenant)>>, c: string)
    ensures var collections := SortStrings(names);
      var mt := MtMap(collections, tenantsOf);
      (c in mt <==> c in names && TenantNames(tenantsOf(c)) != []) &&
      (c in mt ==> Sorted(mt[c]) && multiset(mt[c]) == multiset(TenantNames(tenantsOf(c)))) &&
      (c in Regular(collections, mt) <==> c in names && TenantNames(tenantsOf(c)) == []) &&
      Sorted(Regular(collections, mt))
  {
    var collections := SortStrings(names);
    SortedMembers(names, c);
    MtMapMembers(collections, tenantsOf, c);
    FilterSorted(collections, NotMultiTenant(MtMap(collections, tenantsOf)));
  }

  /** A sub-list of a sorted list, picked by a filter, is sorted. */
  lemma {:induction false} FilterSorted(s: seq<string>, p: string -> bool)
    requires Sorted(s)
    ensures Sorted(Filter(s, p))
    decreases |s|
  {
    if s != [] {
      var t, x := s[..|s| - 1], s[|s| - 1];
      assert Sorted(t);
      FilterSorted(t, p);
      if p(x) {
        var r := Filter(t, p);
        forall i | 0 <= i < |r|
          ensures LexLe(r[i], x)
        {
          assert r[i] in t;
          var k :| 0 <= k < |t| && t[k] == r[i];
          assert s[k] == r[i];
        }
      }
    }
  }

  // ---------------------------------------------------------------------------------------------
  // Tenant deletion

  predicate AnySelected(selectedTenants: map<string, set<string>>) {
    exists c :: c in selectedTenants && selectedTenants[c] != {}
  }

  function Requested(selectedTenants: map<string, set<string>>): string -> bool {
    c => c in selectedTenants && selectedTenants[c] != {}
  }

  function RequestOf(selectedTenants: map<string, set<string>>): string -> (string, set<string>) {
    c => (c, if c in selectedTenants then selectedTenants[c] else {})
  }

  /** The delete_tenants_from_collection calls, in the order of the selection dict: one per
      collection with selected tenants. */
  function TenantRequests(order: seq<string>, selectedTenants: map<string, set<string>>): seq<(string, set<string>)> {
    Select(order, Requested(selectedTenants), RequestOf(selectedTenants))
  }

  /** The selection after the delete loop: emptied where the call succeeded. */
  function AfterTenantDelete(selectedTenants: map<string, set<string>>, deleteTenants: ((string, set<string>)) -> bool): map<string, set<string>> {
    map c | c in selectedTenants :: if selectedTenants[c] != {} && deleteTenants((c, selectedTenants[c])) then {} else selectedTenants[c]
  }

  /** The selection after the loop has handled the collections in `done`. */
  function ClearedSoFar(selectedTenants: map<string, set<string>>, done: seq<string>,
                        deleteTenants: ((string, set<string>)) -> bool): map<string, set<string>> {
    map c | c in selectedTenants :: if c in done && selectedTenants[c] != {} && deleteTenants((c, selectedTenants[c])) then {} else selectedTenants[c]
  }

  /** The calls are made exactly when some tenant is selected, one per collection with selected
      tenants and carrying them; a selection changes exactly when its collection's call was made
      and succeeded, and then it is emptied. */
  lemma TenantDeleteOutcome(order: seq<string>, selectedTenants: map<string, set<string>>,
                            deleteTenants: ((string, set<string>)) -> bool)
    requires forall c :: c in selectedTenants <==> c in order
    ensures TenantRequests(order, selectedTenants) == [] <==> !AnySelected(selectedTenants)
    ensures forall c :: c in selectedTenants ==>
      ((c, selectedTenants[c]) in TenantRequests(order, selectedTenants) <==> selectedTenants[c] != {})
    ensures forall c :: c in selectedTenants ==>
      (AfterTenantDelete(selectedTenants, deleteTenants)[c] != selectedTenants[c] <==>
        (c, selectedTenants[c]) in TenantRequests(order, selectedTenants) && deleteTenants((c, selectedTenants[c]))) &&
      AfterTenantDelete(selectedTenants, deleteTenants)[c] in {{}, selectedTenants[c]}
  {
    var requests := TenantRequests(order, selectedTenants);
    forall c | c in selectedTenants
      ensures (c, selectedTenants[c]) in requests <==> selectedTenants[c] != {}
    {
      SelectMembers(order, Requested(selectedTenants), RequestOf(selectedTenants), (c, selectedTenants[c]));
    }
    if AnySelected(selectedTenants) {
      var c :| c in selectedTenants && selectedTenants[c] != {};
      assert (c, selectedTenants[c]) in requests;
    }
    if requests != [] {
      SelectMembers(order, Requested(selectedTenants), RequestOf(selectedTenants), requests[0]);
    }
  }

  // ---------------------------------------------------------------------------------------------
  // The session state

  /** st.session_state as the page uses it. Python dicts keep their insertion order; the order
      of the keys of selected_tenants decides the order of the delete calls, and that of
      mt_collections is sorted before use, so each dict is a map with its key order beside it. */
  class DeletePageState {
    var selectedCollections: set<string>
    var selectedTenants: map<string, set<string>>
    var tenantOrder: seq<string>
    var collectionsList: seq<string>
    var mtCollections: map<string, seq<string>>
    var mtOrder: seq<string>

    /** Each key order lists its dict's keys once each. */
    ghost predicate Valid()
      reads this
    {
      NoDuplicates(tenantOrder) && (forall c :: c in selectedTenants <==> c in tenantOrder) &&
      NoDuplicates(mtOrder) && (forall c :: c in mtCollections <==> c in mtOrder)
    }

    /** initialize_session_state on the first run: everything empty. */
    constructor ()
      ensures Valid()
      ensures selectedCollections == {} && selectedTenants == map[] && tenantOrder == []
      ensures collectionsList == [] && mtCollections == map[] && mtOrder == []
    {
      selectedCollections := {};
      selectedTenants := map[];
      tenantOrder := [];
      collectionsList := [];
      mtCollections := map[];
      mtOrder := [];
    }

    /** The refresh in get_all_collections_and_tenants: the collection list sorted, and
        mt_collections rebuilt from nothing, asking for the tenants of every collection in
        order. */
    method Refresh(listAll: Answer<seq<string>>, tenantsOf: string -> Answer<seq<(string, Tenant)>>)
      returns (asked: seq<string>)
      requires Valid()
      modifies this`collectionsList, this`mtCollections, this`mtOrder
      ensures Valid()
      ensures collectionsList == SortStrings(ListAllCollections(listAll))
      ensures mtCollections == MtMap(collectionsList, tenantsOf)
      ensures mtOrder == MtOrder(collectionsList, tenantsOf)
      ensures asked == collectionsList
    {
      var collections := ListAllCollections(listAll);
      collections := SortStrings(collections);
      collectionsList := collections;
      asked := collections;
      mtCollections, mtOrder := RebuildMt(collections, tenantsOf);
      MtKeys(collections, tenantsOf);
    }

    /** The check boxes of one group: a checked box adds its collection to the selection, an
        unchecked one discards it. */
    method TickCollections(group: seq<string>, checked: string -> bool)
      modifies this`selectedCollections
      ensures forall c :: c in selectedCollections <==> if c in group then checked(c) else c in old(selectedCollections)
    {
      for j := 0 to |group|
        invariant forall c :: c in selectedCollections <==> if c in group[..j] then checked(c) else c in old(selectedCollections)
      {
        var col := group[j];
        assert group[..j + 1] == group[..j] + [col];
        if checked(col) {
          selectedCollections := selectedCollections + {col};
        } else {
          selectedCollections := selectedCollections - {col};
        }
      }
      assert group[..|group|] == group;
    }

    /** handle_collection_selection. With no regular collection nothing happens. Pressing the
        button with an empty selection is an error and calls nothing; otherwise the selection is
        deleted in one call, and on success it is emptied and the page reruns. Without a rerun
        every regular collection gets a check box, letter by letter, and the selection ends up
        holding the checked ones and whatever it held outside the regular collections. */
    method HandleCollectionSelection(deletePressed: bool, deleteCollections: set<string> -> bool, checked: string -> bool)
      returns (rerun: bool, deleteCalls: seq<set<string>>, visited: seq<string>)
      requires forall c :: c in Regular(collectionsList, mtCollections) ==> c != []
      modifies this`selectedCollections
      ensures var regular := Regular(collectionsList, mtCollections);
        var asked := regular != [] && deletePressed && old(selectedCollections) != {};
        (deleteCalls == if asked then [old(selectedCollections)] else []) &&
        (rerun <==> asked && deleteCollections(old(selectedCollections))) &&
        (rerun ==> selectedCollections == {} && visited == []) &&
        (regular == [] ==> selectedCollections == old(selectedCollections) && visited == []) &&
        (regular != [] && !rerun ==>
          visited == VisitOrder(regular) &&
          forall c :: c in selectedCollections <==> if c in regular then checked(c) else c in old(selectedCollections))
    {
      var regular := Regular(collectionsList, mtCollections);
      rerun, deleteCalls, visited := false, [], [];
      if regular == [] {
        return;
      }
      if deletePressed {
        if |selectedCollections| == 0 {
          assert selectedCollections == {};
        } else {
          var toDelete := selectedCollections;
          deleteCalls := [toDelete];
          var success := deleteCollections(toDelete);
          if success {
            selectedCollections := {};
            rerun := true;
            return;
          }
        }
      }
      visited := ShowCollectionCheckBoxes(regular, checked);
    }

    /** The grouped check boxes: the regular collections letter by letter, and the selection
        updated from each box in that order. */
    method ShowCollectionCheckBoxes(regular: seq<string>, checked: string -> bool) returns (visited: seq<string>)
      requires forall c :: c in regular ==> c != []
      modifies this`selectedCollections
      ensures visited == VisitOrder(regular)
      ensures forall c :: c in selectedCollections <==> if c in regular then checked(c) else c in old(selectedCollections)
    {
      var collectionsByLetter, letters := BucketByLetter(regular);
      var sortedLetters := SortStrings(letters);
      visited := [];
      for i := 0 to |sortedLetters|
        invariant visited == FlatMap(sortedLetters[..i], SortedBucket(regular))
        invariant forall c :: c in selectedCollections <==> if c in visited then checked(c) else c in old(selectedCollections)
      {
        var letter := sortedLetters[i];
        SortedMembers(letters, letter);
        var group := SortStrings(collectionsByLetter[letter]);
        assert group == SortedBucket(regular)(letter);
        FlatMapStep(sortedLetters, SortedBucket(regular), i);
        TickCollections(group, checked);
        visited := visited + group;
        forall c
          ensures c in selectedCollections <==> if c in visited then checked(c) else c in old(selectedCollections)
        {
          assert c in visited <==> c in visited[..|visited| - |group|] || c in group;
        }
      }
      assert sortedLetters[..|sortedLetters|] == sortedLetters;
      forall c
        ensures c in visited <==> c in regular
      {
        VisitOrderMembers(regular, c);
      }
    }

    /** The check boxes of one multi-tenant collection: its selection is created empty when
        missing, then each listed tenant is added when checked and discarded otherwise. */
    method TickTenants(collection: string, tenants: seq<string>, checked: (string, string) -> bool)
      requires Valid()
      modifies this`selectedTenants, this`tenantOrder
      ensures Valid()
      ensures tenantOrder == old(tenantOrder) + if collection in old(selectedTenants) then [] else [collection]
      ensures selectedTenants == old(selectedTenants)[collection := TickedTenants(SelectionOf(old(selectedTenants), collection), collection, tenants, checked)]
    {
      if collection !in selectedTenants {
        selectedTenants := selectedTenants[collection := {}];
        tenantOrder := tenantOrder + [collection];
      }
      ghost var start := SelectionOf(old(selectedTenants), collection);
      for j := 0 to |tenants|
        invariant Valid()
        invariant tenantOrder == old(tenantOrder) + if collection in old(selectedTenants) then [] else [collection]
        invariant selectedTenants == old(selectedTenants)[collection := TickedTenants(start, collection, tenants[..j], checked)]
      {
        var tenant := tenants[j];
        TickedStep(start, collection, tenants, j, checked);
        ghost var ticked := TickedTenants(start, collection, tenants[..j + 1], checked);
        UpdateTwice(old(selectedTenants), collection, TickedTenants(start, collection, tenants[..j], checked), ticked);
        if checked(collection, tenant) {
          selectedTenants := selectedTenants[collection := selectedTenants[collection] + {tenant}];
        } else {
          selectedTenants := selectedTenants[collection := selectedTenants[collection] - {tenant}];
        }
      }
      assert tenants[..|tenants|] == tenants;
    }

    /** The delete loop over the selection dict: a call per collection with selected tenants,
        and that collection's selection emptied when the call succeeds. */
    method DeleteTenants(deleteTenants: ((string, set<string>)) -> bool) returns (deleteCalls: seq<(string, set<string>)>)
      requires Valid()
      modifies this`selectedTenants
      ensures Valid()
      ensures deleteCalls == TenantRequests(tenantOrder, old(selectedTenants))
      ensures selectedTenants == AfterTenantDelete(old(selectedTenants), deleteTenants)
    {
      ghost var start := selectedTenants;
      deleteCalls := [];
      for i := 0 to |tenantOrder|
        invariant deleteCalls == TenantRequests(tenantOrder[..i], start)
        invariant selectedTenants == ClearedSoFar(start, tenantOrder[..i], deleteTenants)
      {
        var collection := tenantOrder[i];
        assert tenantOrder[..i + 1] == tenantOrder[..i] + [collection];
        assert collection !in tenantOrder[..i];
        SelectStep(tenantOrder, Requested(start), RequestOf(start), i);
        ClearedStep(start, tenantOrder[..i], collection, deleteTenants);
        var tenants := selectedTenants[collection];
        if tenants != {} {
          var success := deleteTenants((collection, tenants));
          deleteCalls := deleteCalls + [(collection, tenants)];
          if success {
            selectedTenants := selectedTenants[collection := {}];
          }
        }
      }
      assert tenantOrder[..|tenantOrder|] == tenantOrder;
      ClearedAll(start, tenantOrder, deleteTenants);
      assert selectedTenants.Keys == start.Keys;
    }

    /** handle_mt_collection_selection. With no multi-tenant collection nothing happens.
        Pressing the button with no tenant selected is an error and calls nothing; otherwise
        the delete loop runs and the page reruns. Without a rerun each multi-tenant collection
        with tenants, in sorted order, gets its tenant check boxes. */
    method HandleMtCollectionSelection(deletePressed: bool, deleteTenants: ((string, set<string>)) -> bool,
                                       checked: (string, string) -> bool)
      returns (rerun: bool, deleteCalls: seq<(string, set<string>)>)
      requires Valid()
      modifies this`selectedTenants, this`tenantOrder
      ensures Valid()
      ensures var asked := mtCollections != map[] && deletePressed && AnySelected(old(selectedTenants));
        (rerun <==> asked) &&
        (deleteCalls == if asked then TenantRequests(old(tenantOrder), old(selectedTenants)) else []) &&
        (asked ==> selectedTenants == AfterTenantDelete(old(selectedTenants), deleteTenants) && tenantOrder == old(tenantOrder))
      ensures mtCollections == map[] ==> selectedTenants == old(selectedTenants) && tenantOrder == old(tenantOrder)
      ensures !rerun ==> selectedTenants == ShownAfter(old(selectedTenants), mtCollections, SortStrings(mtOrder), checked)
      ensures !rerun ==>
        tenantOrder == old(tenantOrder) + Filter(SortStrings(mtOrder), NewlyShown(old(selectedTenants), mtCollections))
    {
      rerun, deleteCalls := false, [];
      if mtCollections == map[] {
        FilterNone(SortStrings(mtOrder), NewlyShown(selectedTenants, mtCollections));
        ShownAfterNone(selectedTenants, mtCollections, SortStrings(mtOrder), checked);
        return;
      }
      if deletePressed {
        if !(exists c :: c in selectedTenants && selectedTenants[c] != {}) {
          assert !AnySelected(selectedTenants);
        } else {
          deleteCalls := DeleteTenants(deleteTenants);
          rerun := true;
          return;
        }
      }
      ShowTenantCheckBoxes(checked);
    }

    /** The expander of one multi-tenant collection: its tenant check boxes when it has
        tenants, and nothing otherwise. */
    method ShowCollectionTenants(collection: string, checked: (string, string) -> bool)
      requires Valid() && collection in mtCollections
      modifies this`selectedTenants, this`tenantOrder
      ensures Valid()
      ensures selectedTenants == ShowOne(old(selectedTenants), mtCollections, collection, checked)
      ensures tenantOrder == old(tenantOrder) + if NewlyShownHere(old(selectedTenants), mtCollections, collection) then [collection] else []
    {
      var tenants := mtCollections[collection];
      if tenants != [] {
        TickTenants(collection, tenants, checked);
      }
    }

    /** The tenant check boxes: every multi-tenant collection with tenants, in sorted order,
        gets a selection when it had none and a box per tenant. */
    method ShowTenantCheckBoxes(checked: (string, string) -> bool)
      requires Valid()
      modifies this`selectedTenants, this`tenantOrder
      ensures Valid()
      ensures selectedTenants == ShownAfter(old(selectedTenants), mtCollections, SortStrings(mtOrder), checked)
      ensures tenantOrder == old(tenantOrder) + Filter(SortStrings(mtOrder), NewlyShown(old(selectedTenants), mtCollections))
    {
      ghost var start, startOrder := selectedTenants, tenantOrder;
      var sortedKeys := SortStrings(mtOrder);
      NoDuplicatesPermutation(mtOrder, sortedKeys);
      for i := 0 to |sortedKeys|
        invariant Valid()
        invariant selectedTenants == ShownAfter(start, mtCollections, sortedKeys[..i], checked)
        invariant tenantOrder == startOrder + Filter(sortedKeys[..i], NewlyShown(start, mtCollections))
      {
        var collection := sortedKeys[i];
        NextKey(start, mtCollections, mtOrder, sortedKeys, i, checked);
        ShownAfterStep(start, mtCollections, sortedKeys, i, checked);
        ghost var orderBefore := tenantOrder;
        ShowCollectionTenants(collection, checked);
        FilterExtend(startOrder, orderBefore, tenantOrder, sortedKeys, i, NewlyShown(start, mtCollections));
      }
      assert sortedKeys[..|sortedKeys|] == sortedKeys;
    }
  }

  /** A multi-tenant collection whose tenants get check boxes. */
  predicate Shown(mtCollections: map<string, seq<string>>, c: string) {
    c in mtCollections && mtCollections[c] != []
  }

  /** A shown collection that had no selection yet: the check boxes add its key. */
  predicate NewlyShownHere(selectedTenants: map<string, set<string>>, mtCollections: map<string, seq<string>>, c: string) {
    c !in selectedTenants && Shown(mtCollections, c)
  }

  function NewlyShown(selectedTenants: map<string, set<string>>, mtCollections: map<string, seq<string>>): string -> bool {
    c => NewlyShownHere(selectedTenants, mtCollections, c)
  }

  /** The tenants selected for a collection, none when it has no entry. */
  function SelectionOf(selectedTenants: map<string, set<string>>, collection: string): set<string> {
    if collection in selectedTenants then selectedTenants[collection] else {}
  }

  /** A selection after the check boxes of `tenants`, ticked in order. */
  function TickedTenants(selection: set<string>, collection: string, tenants: seq<string>,
                         checked: (string, string) -> bool): set<string>
    decreases |tenants|
  {
    if tenants == [] then selection
    else
      var t := tenants[|tenants| - 1];
      var before := TickedTenants(selection, collection, tenants[..|tenants| - 1], checked);
      if checked(collection, t) then before + {t} else before - {t}
  }

  lemma UpdateTwice<K, V>(m: map<K, V>, k: K, a: V, b: V)
    ensures m[k := a][k := b] == m[k := b]
  {
  }

  lemma TickedStep(selection: set<string>, collection: string, tenants: seq<string>, j: nat,
                   checked: (string, string) -> bool)
    requires j < |tenants|
    ensures TickedTenants(selection, collection, tenants[..j + 1], checked) ==
      var before := TickedTenants(selection, collection, tenants[..j], checked);
      if checked(collection, tenants[j]) then before + {tenants[j]} else before - {tenants[j]}
  {
    assert tenants[..j + 1][..j] == tenants[..j];
  }

  /** A listed tenant is selected exactly when its box is checked; any other keeps its old
      selection. */
  lemma {:induction false} TickedTenantsMembers(selection: set<string>, collection: string, tenants: seq<string>,
                                                checked: (string, string) -> bool, t: string)
    ensures t in TickedTenants(selection, collection, tenants, checked) <==>
      if t in tenants then checked(collection, t) else t in selection
    decreases |tenants|
  {
    if tenants != [] {
      var init := tenants[..|tenants| - 1];
      TickedTenantsMembers(selection, collection, init, checked, t);
      assert t in tenants <==> t in init || t == tenants[|tenants| - 1];
    }
  }

  /** The selection after the expander of one collection. */
  function ShowOne(selectedTenants: map<string, set<string>>, mtCollections: map<string, seq<string>>,
                   collection: string, checked: (string, string) -> bool): map<string, set<string>> {
    if Shown(mtCollections, collection) then
      selectedTenants[collection := TickedTenants(SelectionOf(selectedTenants, collection), collection, mtCollections[collection], checked)]
    else selectedTenants
  }

  /** The selection after the expanders of the collections in `done`, in order. */
  function ShownAfter(start: map<string, set<string>>, mtCollections: map<string, seq<string>>, done: seq<string>,
                      checked: (string, string) -> bool): map<string, set<string>>
    decreases |done|
  {
    if done == [] then start
    else ShowOne(ShownAfter(start, mtCollections, done[..|done| - 1], checked), mtCollections, done[|done| - 1], checked)
  }

  /** After the expanders of `done`, a collection has a selection exactly when it had one or
      was shown; for a shown collection each of its tenants is selected exactly when its box is
      checked, and every other selection is as it was. */
  lemma {:induction false} ShownAfterMembers(start: map<string, set<string>>, mtCollections: map<string, seq<string>>,
                                             done: seq<string>, checked: (string, string) -> bool, c: string)
    ensures c in ShownAfter(start, mtCollections, done, checked) <==> c in start || (c in done && Shown(mtCollections, c))
    ensures forall t :: t in SelectionOf(ShownAfter(start, mtCollections, done, checked), c) <==>
      if c in done && Shown(mtCollections, c) && t in mtCollections[c] then checked(c, t)
      else t in SelectionOf(start, c)
    decreases |done|
  {
    if done != [] {
      var init, last := done[..|done| - 1], done[|done| - 1];
      ShownAfterMembers(start, mtCollections, init, checked, c);
      assert c in done <==> c in init || c == last;
      forall t
        ensures t in SelectionOf(ShownAfter(start, mtCollections, done, checked), c) <==>
          if c in done && Shown(mtCollections, c) && t in mtCollections[c] then checked(c, t)
          else t in SelectionOf(start, c)
      {
        if c == last && Shown(mtCollections, c) {
          TickedTenantsMembers(SelectionOf(ShownAfter(start, mtCollections, init, checked), c), c, mtCollections[c], checked, t);
        }
      }
    }
  }

  /** The next collection of the sorted keys has an entry, and has a selection exactly when it
      had one at the start. */
  lemma NextKey(start: map<string, set<string>>, mtCollections: map<string, seq<string>>, mtOrder: seq<string>,
                sortedKeys: seq<string>, i: nat, checked: (string, string) -> bool)
    requires forall c :: c in mtCollections <==> c in mtOrder
    requires sortedKeys == SortStrings(mtOrder) && NoDuplicates(sortedKeys) && i < |sortedKeys|
    ensures sortedKeys[i] in mtCollections
    ensures sortedKeys[i] in ShownAfter(start, mtCollections, sortedKeys[..i], checked) <==> sortedKeys[i] in start
  {
    assert sortedKeys[i] !in sortedKeys[..i];
    SortedMembers(mtOrder, sortedKeys[i]);
    ShownAfterMembers(start, mtCollections, sortedKeys[..i], checked, sortedKeys[i]);
  }

  lemma ShownAfterStep(start: map<string, set<string>>, mtCollections: map<string, seq<string>>,
                       s: seq<string>, i: nat, checked: (string, string) -> bool)
    requires i < |s|
    ensures ShownAfter(start, mtCollections, s[..i + 1], checked) ==
      ShowOne(ShownAfter(start, mtCollections, s[..i], checked), mtCollections, s[i], checked)
  {
    assert s[..i + 1][..i] == s[..i];
  }

  /** With no collection shown the expanders change nothing. */
  lemma {:induction false} ShownAfterNone(start: map<string, set<string>>, mtCollections: map<string, seq<string>>,
                                          done: seq<string>, checked: (string, string) -> bool)
    requires forall c :: c in done ==> !Shown(mtCollections, c)
    ensures ShownAfter(start, mtCollections, done, checked) == start
    decreases |done|
  {
    if done != [] {
      ShownAfterNone(start, mtCollections, done[..|done| - 1], checked);
    }
  }

  /** A list that grows by the elements of `s` that pass `p`, one element of `s` at a time. */
  lemma FilterExtend<T(!new)>(base: seq<T>, before: seq<T>, after: seq<T>, s: seq<T>, i: nat, p: T -> bool)
    requires i < |s|
    requires before == base + Filter(s[..i], p)
    requires after == before + if p(s[i]) then [s[i]] else []
    ensures after == base + Filter(s[..i + 1], p)
  {
    assert s[..i + 1] == s[..i] + [s[i]];
    FilterAppend(s[..i], s[i], p);
  }

  /** Once every key has been handled the loop has done the whole delete. */
  lemma ClearedAll(start: map<string, set<string>>, order: seq<string>, deleteTenants: ((string, set<string>)) -> bool)
    requires forall c :: c in start <==> c in order
    ensures ClearedSoFar(start, order, deleteTenants) == AfterTenantDelete(start, deleteTenants)
  {
    var a, b := ClearedSoFar(start, order, deleteTenants), AfterTenantDelete(start, deleteTenants);
    assert a.Keys == b.Keys;
    forall c | c in a
      ensures a[c] == b[c]
    {
      assert c in order;
    }
  }

  lemma ClearedStep(start: map<string, set<string>>, done: seq<string>, c: string,
                    deleteTenants: ((string, set<string>)) -> bool)
    requires c in start && c !in done
    ensures ClearedSoFar(start, done, deleteTenants)[c] == start[c]
    ensures ClearedSoFar(start, done + [c], deleteTenants) ==
      if start[c] != {} && deleteTenants((c, start[c])) then ClearedSoFar(start, done, deleteTenants)[c := {}]
      else ClearedSoFar(start, done, deleteTenants)
  {
  }
}
