/**
 * The in-memory state the commands work on: the contact list (names unique), the filter
 * behind the displayed list, and the command history. The list operations act on the first
 * entry equal to their target, refuse to create a second contact of the same name, and
 * leave the list unchanged when their target is missing.
 */
module Model {
  import opened Wrappers
  import opened Text
  import P = Person
  import StringUtil
  import NameSimilarPredicate
  import CommandHistory

  /** The predicate behind the displayed list. */
  datatype Filter =
    | ShowAll
    | NameContainsKeywords(keywords: seq<string>)
    | NameSimilar(keywords: seq<string>)

  /** Whether the filter lets a person through. */
  predicate Shows(filter: Filter, person: P.Person) {
    match filter
    case ShowAll => true
    case NameContainsKeywords(keywords) =>
      exists i :: 0 <= i < |keywords| && StringUtil.ContainsWordIgnoreCase(person.name, keywords[i]) == Ok(true)
    case NameSimilar(keywords) => NameSimilarPredicate.Matches(keywords, person)
  }

  /** The displayed list: the persons the filter lets through, in list order. */
  function Filtered(persons: seq<P.Person>, filter: Filter): (r: seq<P.Person>)
    ensures |r| <= |persons|
  {
    if persons == [] then []
    else (if Shows(filter, persons[0]) then [persons[0]] else []) + Filtered(persons[1..], filter)
  }

  /** A person is displayed exactly when they are in the list and the filter lets them through. */
  lemma {:induction false} FilteredMembers(persons: seq<P.Person>, filter: Filter)
    ensures forall p :: (p in Filtered(persons, filter) <==> p in persons && Shows(filter, p))
  {
    if persons != [] {
      FilteredMembers(persons[1..], filter);
      assert persons == [persons[0]] + persons[1..];
    }
  }

  /** With the show-all filter the displayed list is the whole list. */
  lemma {:induction false} ShowAllShowsEveryone(persons: seq<P.Person>)
    ensures Filtered(persons, ShowAll) == persons
  {
    if persons != [] {
      ShowAllShowsEveryone(persons[1..]);
      assert persons == [persons[0]] + persons[1..];
    }
  }

  /** No two contacts have the same name. */
  predicate UniqueNames(persons: seq<P.Person>) {
    forall i, j :: 0 <= i < j < |persons| ==> !P.IsSamePerson(persons[i], persons[j])
  }

  /** `hasPerson`: some contact has the person's name. */
  predicate HasSame(persons: seq<P.Person>, person: P.Person) {
    exists i :: 0 <= i < |persons| && P.IsSamePerson(persons[i], person)
  }

  /** The position of the first contact equal (in the sense of `Person.equals`) to `person`. */
  function IndexOfEqual(persons: seq<P.Person>, person: P.Person): (r: Option<nat>)
    ensures r.Some? ==> r.value < |persons| && P.Equals(persons[r.value], person)
    ensures r.Some? ==> forall j :: 0 <= j < r.value ==> !P.Equals(persons[j], person)
    ensures r.None? ==> forall j :: 0 <= j < |persons| ==> !P.Equals(persons[j], person)
  {
    if persons == [] then None
    else if P.Equals(persons[0], person) then Some(0)
    else match IndexOfEqual(persons[1..], person)
      case None => None
      case Some(i) => Some(i + 1)
  }

  /**
   * `setPerson`: the first contact equal to `target` becomes `edited`, unless `edited` would
   * be a second contact of some existing name.
   */
  function Replaced(persons: seq<P.Person>, target: P.Person, edited: P.Person): seq<P.Person> {
    match IndexOfEqual(persons, target)
    case None => persons
    case Some(i) =>
      if !P.IsSamePerson(target, edited) && HasSame(persons, edited) then persons
      else persons[i := edited]
  }

  /** `deletePerson`: the first contact equal to `target` is removed. */
  function Removed(persons: seq<P.Person>, target: P.Person): seq<P.Person> {
    match IndexOfEqual(persons, target)
    case None => persons
    case Some(i) => persons[..i] + persons[i + 1..]
  }

  /** `addPersonAt`: the person is inserted at `index` (at the end when past it), unless the name is taken. */
  function InsertedAt(persons: seq<P.Person>, person: P.Person, index: nat): seq<P.Person> {
    if HasSame(persons, person) then persons
    else
      var j := Min(index, |persons|);
      persons[..j] + [person] + persons[j..]
  }

  lemma UniqueCons(x: P.Person, rest: seq<P.Person>)
    ensures UniqueNames([x] + rest) <==> UniqueNames(rest) && !HasSame(rest, x)
  {
    var s := [x] + rest;
    if UniqueNames(s) {
      forall i, j | 0 <= i < j < |rest|
        ensures !P.IsSamePerson(rest[i], rest[j])
      {
        assert rest[i] == s[i + 1] && rest[j] == s[j + 1];
      }
      forall i | 0 <= i < |rest|
        ensures !P.IsSamePerson(rest[i], x)
      {
        assert s[0] == x && s[i + 1] == rest[i];
      }
    }
  }

  /** In a list with unique names, two different positions hold different names. */
  lemma NamesDiffer(persons: seq<P.Person>, a: nat, b: nat)
    requires UniqueNames(persons) && a < |persons| && b < |persons| && a != b
    ensures !P.IsSamePerson(persons[a], persons[b])
  {
    if a < b {
      assert !P.IsSamePerson(persons[a], persons[b]);
    } else {
      assert !P.IsSamePerson(persons[b], persons[a]);
    }
  }

  /** Replacing a contact keeps names unique: the duplicate check sees to that. */
  lemma ReplacedKeepsNamesUnique(persons: seq<P.Person>, target: P.Person, edited: P.Person)
    requires UniqueNames(persons)
    ensures UniqueNames(Replaced(persons, target, edited))
  {
    var found := IndexOfEqual(persons, target);
    if found.Some? && (P.IsSamePerson(target, edited) || !HasSame(persons, edited)) {
      var i := found.value;
      var r := persons[i := edited];
      forall a, b | 0 <= a < b < |r|
        ensures !P.IsSamePerson(r[a], r[b])
      {
        if a == i {
          NamesDiffer(persons, i, b);
        } else if b == i {
          NamesDiffer(persons, a, i);
        } else {
          NamesDiffer(persons, a, b);
        }
      }
    }
  }

  /** Removing a contact keeps names unique. */
  lemma RemovedKeepsNamesUnique(persons: seq<P.Person>, target: P.Person)
    requires UniqueNames(persons)
    ensures UniqueNames(Removed(persons, target))
  {
    var found := IndexOfEqual(persons, target);
    if found.Some? {
      var i := found.value;
      var r := persons[..i] + persons[i + 1..];
      forall a, b | 0 <= a < b < |r|
        ensures !P.IsSamePerson(r[a], r[b])
      {
        var a' := if a < i then a else a + 1;
        var b' := if b < i then b else b + 1;
        assert r[a] == persons[a'] && r[b] == persons[b'];
        NamesDiffer(persons, a', b');
      }
    }
  }

  /** Inserting a contact keeps names unique: a taken name is refused. */
  lemma InsertedKeepsNamesUnique(persons: seq<P.Person>, person: P.Person, index: nat)
    requires UniqueNames(persons)
    ensures UniqueNames(InsertedAt(persons, person, index))
  {
    if !HasSame(persons, person) {
      var j := Min(index, |persons|);
      var r := persons[..j] + [person] + persons[j..];
      forall a, b | 0 <= a < b < |r|
        ensures !P.IsSamePerson(r[a], r[b])
      {
        if a == j {
          assert r[b] == persons[b - 1];
        } else if b == j {
          assert r[a] == persons[a];
        } else {
          var a' := if a < j then a else a - 1;
          var b' := if b < j then b else b - 1;
          assert r[a] == persons[a'] && r[b] == persons[b'];
          NamesDiffer(persons, a', b');
        }
      }
    }
  }

  /** In a list with unique names, the only entry equal to a listed contact is that contact's own. */
  lemma IndexOfListed(persons: seq<P.Person>, i: nat)
    requires UniqueNames(persons) && i < |persons|
    ensures IndexOfEqual(persons, persons[i]) == Some(i)
  {
    forall j | 0 <= j < |persons| && j != i
      ensures !P.Equals(persons[j], persons[i])
    {
      NamesDiffer(persons, j, i);
    }
    assert P.Equals(persons[i], persons[i]);
  }

  /**
   * Deleting a contact and adding it back at its old position gives the list back, and the
   * deleted contact's name is free in between.
   */
  lemma RemoveThenInsertRestores(persons: seq<P.Person>, i: nat)
    requires UniqueNames(persons) && i < |persons|
    ensures Removed(persons, persons[i]) == persons[..i] + persons[i + 1..]
    ensures !HasSame(Removed(persons, persons[i]), persons[i])
    ensures InsertedAt(Removed(persons, persons[i]), persons[i], i) == persons
  {
    IndexOfListed(persons, i);
    var r := persons[..i] + persons[i + 1..];
    forall a | 0 <= a < |r|
      ensures !P.IsSamePerson(r[a], persons[i])
    {
      var a' := if a < i then a else a + 1;
      assert r[a] == persons[a'];
      NamesDiffer(persons, a', i);
    }
    assert r[..i] + [persons[i]] + r[i..] == persons;
  }

  /**
   * Replacing a contact by an edited one that passes the duplicate check, and then the
   * edited one by the original, gives the list back: the store half of undoing an edit.
   */
  lemma ReplaceThenReplaceBack(persons: seq<P.Person>, i: nat, edited: P.Person)
    requires UniqueNames(persons) && i < |persons|
    requires P.IsSamePerson(persons[i], edited) || !HasSame(persons, edited)
    ensures Replaced(persons, persons[i], edited) == persons[i := edited]
    ensures Replaced(persons[i := edited], edited, persons[i]) == persons
  {
    var original := persons[i];
    IndexOfListed(persons, i);
    var r := persons[i := edited];
    ReplacedKeepsNamesUnique(persons, original, edited);
    IndexOfListed(r, i);
    assert r[i] == edited;
    if !P.IsSamePerson(edited, original) {
      forall a | 0 <= a < |r|
        ensures !P.IsSamePerson(r[a], original)
      {
        if a != i {
          NamesDiffer(persons, a, i);
        }
      }
    }
    assert r[i := original] == persons;
  }

  /** An edit that would duplicate another contact's name leaves the list as it was. */
  lemma ReplaceRefusesDuplicate(persons: seq<P.Person>, target: P.Person, edited: P.Person)
    requires !P.IsSamePerson(target, edited) && HasSame(persons, edited)
    ensures Replaced(persons, target, edited) == persons
  {
  }

  // ---------------------------------------------------------------------------
  // Deleting and restoring several contacts, as `delete` and its undo do

  /** `redo`/`executeConfirmed` of `delete`: each target removed in turn. */
  function RemovedAll(persons: seq<P.Person>, targets: seq<P.Person>): seq<P.Person>
    decreases |targets|
  {
    if targets == [] then persons else RemovedAll(Removed(persons, targets[0]), targets[1..])
  }

  /** `undo` of `delete`: each target put back at its index, in turn, unless its name is present. */
  function RestoredAll(persons: seq<P.Person>, targets: seq<P.Person>, indices: seq<nat>): seq<P.Person>
    requires |targets| == |indices|
    decreases |targets|
  {
    if targets == [] then persons
    else
      var next := if HasSame(persons, targets[0]) then persons else InsertedAt(persons, targets[0], indices[0]);
      RestoredAll(next, targets[1..], indices[1..])
  }

  /** Restoring puts every target's name back in the list. */
  lemma {:induction false} RestoredAllHasTargets(persons: seq<P.Person>, targets: seq<P.Person>, indices: seq<nat>)
    requires |targets| == |indices|
    ensures forall k :: 0 <= k < |targets| ==> HasSame(RestoredAll(persons, targets, indices), targets[k])
    ensures forall p :: HasSame(persons, p) ==> HasSame(RestoredAll(persons, targets, indices), p)
    decreases |targets|
  {
    if targets != [] {
      var next := if HasSame(persons, targets[0]) then persons else InsertedAt(persons, targets[0], indices[0]);
      InsertedAtKeeps(persons, targets[0], indices[0]);
      RestoredAllHasTargets(next, targets[1..], indices[1..]);
      forall k | 0 < k < |targets|
        ensures HasSame(RestoredAll(persons, targets, indices), targets[k])
      {
        assert targets[k] == targets[1..][k - 1];
      }
    }
  }

  lemma InsertedAtKeeps(persons: seq<P.Person>, person: P.Person, index: nat)
    ensures HasSame(InsertedAt(persons, person, index), person)
    ensures forall p :: HasSame(persons, p) ==> HasSame(InsertedAt(persons, person, index), p)
  {
    if !HasSame(persons, person) {
      var j := Min(index, |persons|);
      var r := persons[..j] + [person] + persons[j..];
      assert r[j] == person;
      forall p | HasSame(persons, p)
        ensures HasSame(r, p)
      {
        var a :| 0 <= a < |persons| && P.IsSamePerson(persons[a], p);
        if a < j {
          assert r[a] == persons[a];
        } else {
          assert r[a + 1] == persons[a];
        }
      }
    }
  }

  /** Once every target's name is present, restoring changes nothing: undoing twice is undoing once. */
  lemma {:induction false} RestoredAllIdle(persons: seq<P.Person>, targets: seq<P.Person>, indices: seq<nat>)
    requires |targets| == |indices|
    requires forall k :: 0 <= k < |targets| ==> HasSame(persons, targets[k])
    ensures RestoredAll(persons, targets, indices) == persons
    decreases |targets|
  {
    if targets != [] {
      forall k | 0 <= k < |targets| - 1
        ensures HasSame(persons, targets[1..][k])
      {
        assert targets[1..][k] == targets[k + 1];
      }
      RestoredAllIdle(persons, targets[1..], indices[1..]);
    }
  }

  lemma RestoreTwiceIsRestoreOnce(persons: seq<P.Person>, targets: seq<P.Person>, indices: seq<nat>)
    requires |targets| == |indices|
    ensures RestoredAll(RestoredAll(persons, targets, indices), targets, indices) == RestoredAll(persons, targets, indices)
  {
    RestoredAllHasTargets(persons, targets, indices);
    RestoredAllIdle(RestoredAll(persons, targets, indices), targets, indices);
  }

  /** The list without the contacts in `gone`, in order. */
  function Without(persons: seq<P.Person>, gone: set<P.Person>): (r: seq<P.Person>)
    ensures |r| <= |persons|
  {
    if persons == [] then []
    else (if persons[0] in gone then [] else [persons[0]]) + Without(persons[1..], gone)
  }

  lemma {:induction false} WithoutAppend(a: seq<P.Person>, b: seq<P.Person>, gone: set<P.Person>)
    ensures Without(a + b, gone) == Without(a, gone) + Without(b, gone)
  {
    if a != [] {
      assert (a + b)[1..] == a[1..] + b;
      WithoutAppend(a[1..], b, gone);
    } else {
      assert a + b == b;
    }
  }

  lemma {:induction false} WithoutMembers(persons: seq<P.Person>, gone: set<P.Person>)
    ensures forall p :: (p in Without(persons, gone) <==> p in persons && p !in gone)
  {
    if persons != [] {
      WithoutMembers(persons[1..], gone);
      assert persons == [persons[0]] + persons[1..];
    }
  }

  /** Removing contacts that are not there changes nothing. */
  lemma {:induction false} WithoutNothing(persons: seq<P.Person>, gone: set<P.Person>, extra: set<P.Person>)
    requires forall j :: 0 <= j < |persons| ==> persons[j] !in extra
    ensures Without(persons, gone + extra) == Without(persons, gone)
  {
    if persons != [] {
      WithoutNothing(persons[1..], gone, extra);
    }
  }

  lemma {:induction false} WithoutFree(persons: seq<P.Person>, gone: set<P.Person>)
    requires forall j :: 0 <= j < |persons| ==> persons[j] !in gone
    ensures Without(persons, gone) == persons
  {
    if persons != [] {
      WithoutFree(persons[1..], gone);
      assert persons == [persons[0]] + persons[1..];
    }
  }

  /** The list without `gone`, cut at position i. */
  lemma WithoutAround(persons: seq<P.Person>, i: nat, gone: set<P.Person>)
    requires i < |persons|
    ensures Without(persons, gone)
            == Without(persons[..i], gone) + (if persons[i] in gone then [] else [persons[i]])
               + Without(persons[i + 1..], gone)
  {
    assert persons == persons[..i] + [persons[i]] + persons[i + 1..];
    WithoutAppend(persons[..i] + [persons[i]], persons[i + 1..], gone);
    WithoutAppend(persons[..i], [persons[i]], gone);
    assert [persons[i]][1..] == [];
  }

  lemma {:induction false} WithoutTwice(persons: seq<P.Person>, a: set<P.Person>, b: set<P.Person>)
    ensures Without(Without(persons, a), b) == Without(persons, a + b)
  {
    if persons != [] {
      WithoutTwice(persons[1..], a, b);
      var head := if persons[0] in a then [] else [persons[0]];
      WithoutAppend(head, Without(persons[1..], a), b);
    }
  }

  lemma {:induction false} WithoutKeepsNamesUnique(persons: seq<P.Person>, gone: set<P.Person>)
    requires UniqueNames(persons)
    ensures UniqueNames(Without(persons, gone))
  {
    if persons != [] {
      UniqueCons(persons[0], persons[1..]);
      assert persons == [persons[0]] + persons[1..];
      WithoutKeepsNamesUnique(persons[1..], gone);
      var tail := persons[1..];
      var rest := Without(tail, gone);
      if persons[0] !in gone {
        WithoutMembers(tail, gone);
        forall a | 0 <= a < |rest|
          ensures !P.IsSamePerson(rest[a], persons[0])
        {
          assert rest[a] in tail;
          var c :| 0 <= c < |tail| && tail[c] == rest[a];
        }
        UniqueCons(persons[0], rest);
      }
    }
  }

  /** Different contacts of a list with unique names have different names. */
  lemma ListedDistinctNames(persons: seq<P.Person>, x: P.Person, y: P.Person)
    requires UniqueNames(persons) && x in persons && y in persons && x != y
    ensures !P.IsSamePerson(x, y)
  {
    var a :| 0 <= a < |persons| && persons[a] == x;
    var b :| 0 <= b < |persons| && persons[b] == y;
    NamesDiffer(persons, a, b);
  }

  /** Deleting a listed contact from what is left of the list removes it if still there. */
  lemma RemovedFromWithout(persons: seq<P.Person>, gone: set<P.Person>, target: P.Person)
    requires UniqueNames(persons) && target in persons
    ensures Removed(Without(persons, gone), target) == Without(persons, gone + {target})
  {
    var rest := Without(persons, gone);
    WithoutMembers(persons, gone);
    WithoutKeepsNamesUnique(persons, gone);
    WithoutTwice(persons, gone, {target});
    if target in rest {
      var i :| 0 <= i < |rest| && rest[i] == target;
      RemoveListed(rest, i);
    } else {
      RemoveAbsent(persons, rest, target);
    }
  }

  /** In a list with unique names, a listed contact appears at its own position only. */
  lemma OnlyAt(rest: seq<P.Person>, i: nat)
    requires UniqueNames(rest) && i < |rest|
    ensures forall j :: 0 <= j < |rest| && j != i ==> rest[j] != rest[i]
  {
    forall j | 0 <= j < |rest| && j != i
      ensures rest[j] != rest[i]
    {
      NamesDiffer(rest, j, i);
    }
  }

  /** Removing `x` around one occurrence of it, from parts that do not hold it, joins the parts. */
  lemma WithoutSplice(front: seq<P.Person>, x: P.Person, back: seq<P.Person>)
    requires Without(front, {x}) == front && Without(back, {x}) == back
    ensures Without(front + [x] + back, {x}) == front + back
  {
    WithoutAppend(front + [x], back, {x});
    WithoutAppend(front, [x], {x});
    assert [x][1..] == [];
  }

  /** Removing a contact listed once, as a set, drops exactly its entry. */
  lemma WithoutListed(front: seq<P.Person>, x: P.Person, back: seq<P.Person>)
    requires x !in front && x !in back
    ensures Without(front + [x] + back, {x}) == front + back
  {
    WithoutFree(front, {x});
    WithoutFree(back, {x});
    WithoutSplice(front, x, back);
  }

  /** Removing a listed contact from a list with unique names removes exactly that entry. */
  lemma RemoveListed(rest: seq<P.Person>, i: nat)
    requires UniqueNames(rest) && i < |rest|
    ensures Removed(rest, rest[i]) == Without(rest, {rest[i]})
  {
    RemoveThenInsertRestores(rest, i);
    OnlyAt(rest, i);
    var front, back := rest[..i], rest[i + 1..];
    forall b | 0 <= b < |front|
      ensures front[b] != rest[i]
    {
      assert front[b] == rest[b];
    }
    forall b | 0 <= b < |back|
      ensures back[b] != rest[i]
    {
      assert back[b] == rest[i + 1 + b];
    }
    assert rest == front + [rest[i]] + back;
    WithoutListed(front, rest[i], back);
  }

  /** Removing a contact no longer in a sublist of a list with unique names changes nothing. */
  lemma RemoveAbsent(persons: seq<P.Person>, rest: seq<P.Person>, target: P.Person)
    requires UniqueNames(persons) && target in persons && target !in rest
    requires forall p :: p in rest ==> p in persons
    ensures Removed(rest, target) == rest
    ensures Without(rest, {target}) == rest
  {
    forall j | 0 <= j < |rest|
      ensures !P.Equals(rest[j], target)
    {
      assert rest[j] in rest;
      ListedDistinctNames(persons, rest[j], target);
    }
    WithoutFree(rest, {target});
  }

  lemma {:induction false} WithoutOfNothing(persons: seq<P.Person>)
    ensures Without(persons, {}) == persons
  {
    if persons != [] {
      WithoutOfNothing(persons[1..]);
      assert persons == [persons[0]] + persons[1..];
    }
  }

  function Elements(targets: seq<P.Person>): set<P.Person> {
    set p | p in targets
  }

  /** Deleting listed contacts one by one leaves the list without them, in its old order. */
  lemma {:induction false} RemovedAllIsWithout(persons: seq<P.Person>, gone: set<P.Person>, targets: seq<P.Person>)
    requires UniqueNames(persons)
    requires forall k :: 0 <= k < |targets| ==> targets[k] in persons
    ensures RemovedAll(Without(persons, gone), targets) == Without(persons, gone + Elements(targets))
    decreases |targets|
  {
    if targets == [] {
      assert gone + Elements(targets) == gone;
    } else {
      var t, rest := targets[0], targets[1..];
      RemovedFromWithout(persons, gone, t);
      forall k | 0 <= k < |rest|
        ensures rest[k] in persons
      {
        assert rest[k] == targets[k + 1];
      }
      assert RemovedAll(Without(persons, gone), targets) == RemovedAll(Without(persons, gone + {t}), rest);
      RemovedAllIsWithout(persons, gone + {t}, rest);
      ElementsCons(targets);
      assert gone + {t} + Elements(rest) == gone + Elements(targets);
    }
  }

  /** The contacts of a non-empty list are its first and those of the rest. */
  lemma ElementsCons(targets: seq<P.Person>)
    requires targets != []
    ensures Elements(targets) == {targets[0]} + Elements(targets[1..])
  {
    assert targets == [targets[0]] + targets[1..];
  }

  /** The indices are strictly increasing, in range, and name the targets' positions. */
  predicate AscendingPositions(persons: seq<P.Person>, targets: seq<P.Person>, indices: seq<nat>) {
    |targets| == |indices|
    && (forall k :: 0 <= k < |indices| ==> indices[k] < |persons| && persons[indices[k]] == targets[k])
    && (forall k, l :: 0 <= k < l < |indices| ==> indices[k] < indices[l])
  }

  /** Nothing before the position of target m is a target from m on. */
  lemma FrontIsKept(persons: seq<P.Person>, targets: seq<P.Person>, indices: seq<nat>, m: nat)
    requires UniqueNames(persons) && AscendingPositions(persons, targets, indices) && m < |targets|
    ensures forall a :: 0 <= a < indices[m] ==> persons[a] !in Elements(targets[m..])
  {
    var from := targets[m..];
    forall a, j | 0 <= a < indices[m] && 0 <= j < |from|
      ensures from[j] != persons[a]
    {
      assert from[j] == persons[indices[m + j]];
      assert indices[m] <= indices[m + j];
      NamesDiffer(persons, a, indices[m + j]);
    }
  }

  /** Target m is none of the later targets, and nothing after its position is it. */
  lemma TargetOnce(persons: seq<P.Person>, targets: seq<P.Person>, indices: seq<nat>, m: nat)
    requires UniqueNames(persons) && AscendingPositions(persons, targets, indices) && m < |targets|
    ensures targets[m] !in Elements(targets[m + 1..])
    ensures forall j :: indices[m] < j < |persons| ==> persons[j] != targets[m]
  {
    var i := indices[m];
    var after := targets[m + 1..];
    forall j | 0 <= j < |after|
      ensures after[j] != targets[m]
    {
      assert after[j] == persons[indices[m + 1 + j]];
      NamesDiffer(persons, i, indices[m + 1 + j]);
    }
    forall j | i < j < |persons|
      ensures persons[j] != targets[m]
    {
      NamesDiffer(persons, j, i);
    }
  }

  /**
   * Cutting the list at the position of a contact `x`: with nothing before it deleted and `x`
   * nowhere after it, deleting `x` as well as `later` leaves the front, then the back without `later`.
   */
  lemma CutAt(persons: seq<P.Person>, i: nat, later: set<P.Person>)
    requires i < |persons| && persons[i] !in later
    requires forall j :: 0 <= j < i ==> persons[j] !in later + {persons[i]}
    requires forall j :: i < j < |persons| ==> persons[j] != persons[i]
    ensures Without(persons, later + {persons[i]}) == persons[..i] + Without(persons[i + 1..], later)
    ensures Without(persons, later) == persons[..i] + [persons[i]] + Without(persons[i + 1..], later)
  {
    CutDropping(persons, i, later);
    forall j | 0 <= j < i
      ensures persons[j] !in later
    {
      assert persons[j] !in later + {persons[i]};
    }
    CutKeeping(persons, i, later);
  }

  /** The first half of CutAt: `x` is deleted along with `later`. */
  lemma CutDropping(persons: seq<P.Person>, i: nat, later: set<P.Person>)
    requires i < |persons|
    requires forall j :: 0 <= j < i ==> persons[j] !in later + {persons[i]}
    requires forall j :: i < j < |persons| ==> persons[j] != persons[i]
    ensures Without(persons, later + {persons[i]}) == persons[..i] + Without(persons[i + 1..], later)
  {
    var gone := later + {persons[i]};
    FrontFree(persons, i, gone);
    WithoutAround(persons, i, gone);
    assert persons[i] in gone;
    BackWithout(persons, i, later);
  }

  /** The second half of CutAt: `x` stays, only `later` is deleted. */
  lemma CutKeeping(persons: seq<P.Person>, i: nat, later: set<P.Person>)
    requires i < |persons| && persons[i] !in later
    requires forall j :: 0 <= j < i ==> persons[j] !in later
    ensures Without(persons, later) == persons[..i] + [persons[i]] + Without(persons[i + 1..], later)
  {
    FrontFree(persons, i, later);
    WithoutAround(persons, i, later);
  }

  /** A front none of whose contacts is in `gone` survives removing `gone`. */
  lemma FrontFree(persons: seq<P.Person>, i: nat, gone: set<P.Person>)
    requires i <= |persons|
    requires forall j :: 0 <= j < i ==> persons[j] !in gone
    ensures Without(persons[..i], gone) == persons[..i]
  {
    var front := persons[..i];
    forall j | 0 <= j < |front|
      ensures front[j] !in gone
    {
      assert front[j] == persons[j];
    }
    WithoutFree(front, gone);
  }

  /** Behind the only occurrence of `persons[i]`, removing it as well changes nothing. */
  lemma BackWithout(persons: seq<P.Person>, i: nat, later: set<P.Person>)
    requires i < |persons|
    requires forall j :: i < j < |persons| ==> persons[j] != persons[i]
    ensures Without(persons[i + 1..], later + {persons[i]}) == Without(persons[i + 1..], later)
  {
    var back := persons[i + 1..];
    forall j | 0 <= j < |back|
      ensures back[j] !in {persons[i]}
    {
      assert back[j] == persons[i + 1 + j];
    }
    WithoutNothing(back, later, {persons[i]});
  }

  /** While targets m onwards are deleted, what is left is the front, then the rest without the later ones. */
  lemma ShapeAt(persons: seq<P.Person>, targets: seq<P.Person>, indices: seq<nat>, m: nat)
    requires UniqueNames(persons) && AscendingPositions(persons, targets, indices) && m < |targets|
    ensures Without(persons, Elements(targets[m..]))
            == persons[..indices[m]] + Without(persons[indices[m] + 1..], Elements(targets[m + 1..]))
    ensures Without(persons, Elements(targets[m + 1..]))
            == persons[..indices[m]] + [targets[m]] + Without(persons[indices[m] + 1..], Elements(targets[m + 1..]))
  {
    var later := Elements(targets[m + 1..]);
    assert targets[m..] == [targets[m]] + targets[m + 1..];
    assert Elements(targets[m..]) == later + {persons[indices[m]]};
    FrontIsKept(persons, targets, indices, m);
    TargetOnce(persons, targets, indices, m);
    CutAt(persons, indices[m], later);
  }

  /** One step of the restore: with the later targets still missing, the next one goes back in place. */
  lemma RestoreStep(persons: seq<P.Person>, targets: seq<P.Person>, indices: seq<nat>, m: nat)
    requires UniqueNames(persons) && AscendingPositions(persons, targets, indices) && m < |targets|
    ensures !HasSame(Without(persons, Elements(targets[m..])), targets[m])
    ensures InsertedAt(Without(persons, Elements(targets[m..])), targets[m], indices[m])
            == Without(persons, Elements(targets[m + 1..]))
  {
    var i := indices[m];
    var x := targets[m];
    var all := Elements(targets[m..]);
    ShapeAt(persons, targets, indices, m);
    var rest := Without(persons, all);
    assert x in targets[m..];
    WithoutMembers(persons, all);
    forall a | 0 <= a < |rest|
      ensures !P.IsSamePerson(rest[a], x)
    {
      assert rest[a] in rest;
      ListedDistinctNames(persons, rest[a], x);
    }
    var kept := Without(persons[i + 1..], Elements(targets[m + 1..]));
    assert rest[..i] == persons[..i] && rest[i..] == kept;
  }

  /** Restoring from position m on rebuilds the whole list. */
  lemma {:induction false} RestoreFrom(persons: seq<P.Person>, targets: seq<P.Person>, indices: seq<nat>, m: nat)
    requires UniqueNames(persons) && AscendingPositions(persons, targets, indices) && m <= |targets|
    ensures RestoredAll(Without(persons, Elements(targets[m..])), targets[m..], indices[m..]) == persons
    decreases |targets| - m
  {
    if m == |targets| {
      assert Elements(targets[m..]) == {};
      WithoutOfNothing(persons);
    } else {
      RestoreStep(persons, targets, indices, m);
      RestoreFrom(persons, targets, indices, m + 1);
      assert targets[m..][1..] == targets[m + 1..];
      assert indices[m..][1..] == indices[m + 1..];
    }
  }

  /**
   * Undoing a deletion whose indices were given in increasing order, with every contact
   * shown, gives back the list exactly as it was.
   */
  lemma UndoRestoresAscendingDelete(persons: seq<P.Person>, targets: seq<P.Person>, indices: seq<nat>)
    requires UniqueNames(persons) && AscendingPositions(persons, targets, indices)
    ensures RestoredAll(RemovedAll(persons, targets), targets, indices) == persons
  {
    WithoutOfNothing(persons);
    RemovedAllIsWithout(persons, {}, targets);
    assert {} + Elements(targets) == Elements(targets[0..]);
    assert targets[0..] == targets && indices[0..] == indices;
    RestoreFrom(persons, targets, indices, 0);
  }

  /** Deleting listed contacts one by one leaves none of their names in the list. */
  lemma RemovedAllDropsTargets(persons: seq<P.Person>, targets: seq<P.Person>)
    requires UniqueNames(persons)
    requires forall k :: 0 <= k < |targets| ==> targets[k] in persons
    ensures forall k :: 0 <= k < |targets| ==> !HasSame(RemovedAll(persons, targets), targets[k])
  {
    WithoutOfNothing(persons);
    RemovedAllIsWithout(persons, {}, targets);
    var gone := {} + Elements(targets);
    var r := RemovedAll(persons, targets);
    assert r == Without(persons, gone);
    WithoutMembers(persons, gone);
    forall k, a | 0 <= k < |targets| && 0 <= a < |r|
      ensures !P.IsSamePerson(r[a], targets[k])
    {
      assert r[a] in r;
      assert targets[k] in gone;
      ListedDistinctNames(persons, r[a], targets[k]);
    }
  }

  /**
   * Undoing a deletion whose indices were not in increasing order need not restore the order:
   * deleting the third and then the first of four contacts, and undoing, moves the third one
   * to the end.
   */
  lemma UndoReordersDescendingDelete(a: P.Person, b: P.Person, c: P.Person, d: P.Person)
    requires UniqueNames([a, b, c, d])
    ensures RemovedAll([a, b, c, d], [c, a]) == [b, d]
    ensures RestoredAll(RemovedAll([a, b, c, d], [c, a]), [c, a], [2, 0]) == [a, b, d, c]
    ensures [a, b, d, c] != [a, b, c, d]
  {
    var ps := [a, b, c, d];
    NamesDiffer(ps, 0, 1);
    NamesDiffer(ps, 0, 2);
    NamesDiffer(ps, 0, 3);
    NamesDiffer(ps, 1, 2);
    NamesDiffer(ps, 1, 3);
    NamesDiffer(ps, 2, 3);
    DescendingDeleteLeaves(a, b, c, d);
    DescendingUndoOrder(a, b, c, d);
    assert ([a, b, d, c])[2] != ([a, b, c, d])[2];
  }

  lemma DescendingDeleteLeaves(a: P.Person, b: P.Person, c: P.Person, d: P.Person)
    requires UniqueNames([a, b, c, d])
    requires a != b && a != c && a != d && b != c && b != d && c != d
    ensures RemovedAll([a, b, c, d], [c, a]) == [b, d]
  {
    var ps := [a, b, c, d];
    WithoutOfNothing(ps);
    assert [c, a][0] == ps[2] && [c, a][1] == ps[0];
    RemovedAllIsWithout(ps, {}, [c, a]);
    ElementsOfPair(c, a);
    WithoutFirstAndThird(a, b, c, d);
  }

  /** The contacts of a two-element list, added to nothing, are those two. */
  lemma ElementsOfPair(x: P.Person, y: P.Person)
    ensures {} + Elements([x, y]) == {x, y}
  {
    assert Elements([x, y]) == {x, y};
  }

  /** Removing the first and third of four different contacts leaves the second and fourth. */
  lemma WithoutFirstAndThird(a: P.Person, b: P.Person, c: P.Person, d: P.Person)
    requires a != b && a != c && a != d && b != c && b != d && c != d
    ensures Without([a, b, c, d], {c, a}) == [b, d]
  {
    var gone := {c, a};
    assert [a, b, c, d][1..] == [b, c, d] && [b, c, d][1..] == [c, d] && [c, d][1..] == [d] && [d][1..] == [];
    assert Without([d], gone) == [d];
    assert Without([c, d], gone) == [d];
    assert Without([b, c, d], gone) == [b, d];
  }

  lemma DescendingUndoOrder(a: P.Person, b: P.Person, c: P.Person, d: P.Person)
    requires !P.IsSamePerson(b, c) && !P.IsSamePerson(d, c)
    requires !P.IsSamePerson(b, a) && !P.IsSamePerson(d, a) && !P.IsSamePerson(c, a)
    ensures RestoredAll([b, d], [c, a], [2, 0]) == [a, b, d, c]
  {
    assert !HasSame([b, d], c);
    assert InsertedAt([b, d], c, 2) == [b, d, c];
    assert !HasSame([b, d, c], a);
    assert InsertedAt([b, d, c], a, 0) == [a, b, d, c];
    assert [c, a][1..] == [a] && [2, 0][1..] == [0];
    assert [a][1..] == [] && [0][1..] == [];
    assert RestoredAll([a, b, d, c], [], []) == [a, b, d, c];
    assert RestoredAll([b, d, c], [a], [0]) == RestoredAll([a, b, d, c], [], []);
    assert RestoredAll([b, d], [c, a], [2, 0]) == RestoredAll([b, d, c], [a], [0]);
  }

  // ---------------------------------------------------------------------------
  // The model object

  class Model {
    var persons: seq<P.Person>
    var filter: Filter
    const history: CommandHistory.CommandHistory

    predicate Valid()
      reads this, history
    {
      UniqueNames(persons) && history.Valid()
    }

    /** A model over the given contacts and history, showing everyone. */
    constructor (persons: seq<P.Person>, history: CommandHistory.CommandHistory)
      requires UniqueNames(persons) && history.Valid()
      ensures Valid()
      ensures this.persons == persons && this.filter == ShowAll && this.history == history
    {
      this.persons := persons;
      this.filter := ShowAll;
      this.history := history;
    }

    /** `getFilteredPersonList`. */
    function Shown(): seq<P.Person>
      reads this
    {
      Filtered(persons, filter)
    }

    /** `hasPerson`. */
    predicate HasPerson(person: P.Person)
      reads this
    {
      HasSame(persons, person)
    }

    /** `setPerson`: see `Replaced`; the filter stays. */
    method SetPerson(target: P.Person, edited: P.Person)
      requires Valid()
      modifies this
      ensures Valid()
      ensures persons == Replaced(old(persons), target, edited) && filter == old(filter)
    {
      ReplacedKeepsNamesUnique(persons, target, edited);
      persons := Replaced(persons, target, edited);
    }

    /** `deletePerson`: see `Removed`; the filter stays. */
    method DeletePerson(target: P.Person)
      requires Valid()
      modifies this
      ensures Valid()
      ensures persons == Removed(old(persons), target) && filter == old(filter)
    {
      RemovedKeepsNamesUnique(persons, target);
      persons := Removed(persons, target);
    }

    /** `addPersonAt`: see `InsertedAt`; the filter stays. */
    method AddPersonAt(person: P.Person, index: nat)
      requires Valid()
      modifies this
      ensures Valid()
      ensures persons == InsertedAt(old(persons), person, index) && filter == old(filter)
    {
      InsertedKeepsNamesUnique(persons, person, index);
      persons := InsertedAt(persons, person, index);
    }

    /** `updateFilteredPersonList`. */
    method UpdateFilteredPersonList(newFilter: Filter)
      modifies this
      ensures filter == newFilter && persons == old(persons)
    {
      filter := newFilter;
    }

    /** `setAddressBook(new AddressBook())`: no contacts left. */
    method ClearAddressBook()
      requires Valid()
      modifies this
      ensures Valid()
      ensures persons == [] && filter == old(filter)
    {
      persons := [];
    }

    /** `addToCommandHistory`. */
    method AddToCommandHistory(commandText: string)
      requires Valid()
      modifies history
      ensures Valid()
      ensures history.commandList == CommandHistory.Recent(old(history.commandList) + [commandText])
    {
      history.AddCommand(commandText);
    }
  }
}
