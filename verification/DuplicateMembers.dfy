/** Objects with duplicate names (section 4 of RFC 8259): every way of choosing one occurrence per name. */
module DuplicateMembers {
  import opened TextModel

  /** A parsed document: objects keep every member in order; numbers, booleans and null are scalars. */
  datatype Json = Obj(pairs: seq<Member>) | Arr(items: seq<Json>) | Str(text: Text) | Scalar

  datatype Member = Member(key: Text, value: Json)

  type Members = seq<Member>

  /** A reading of the object: for each name in it, one of the values it was given. */
  ghost predicate IsSelection(m: map<Text, Json>, pairs: Members) {
    && (forall k :: k in m <==> ValuesOf(pairs, k) != [])
    && (forall k | k in m :: m[k] in ValuesOf(pairs, k))
  }

  ghost predicate SomeSelectionMatches(pairs: Members, p: map<Text, Json> -> bool) {
    exists m :: IsSelection(m, pairs) && p(m)
  }

  /** The values a name is given, in order. */
  function ValuesOf(pairs: Members, k: Text): seq<Json> {
    if pairs == [] then []
    else
      var last := pairs[|pairs| - 1];
      ValuesOf(pairs[..|pairs| - 1], k) + (if last.key == k then [last.value] else [])
  }

  lemma {:induction false} ValuesAreTheMembers(pairs: Members, k: Text, v: Json)
    ensures v in ValuesOf(pairs, k) <==> Member(k, v) in pairs
  {
    if pairs != [] {
      var n := |pairs| - 1;
      ValuesAreTheMembers(pairs[..n], k, v);
      assert pairs == pairs[..n] + [pairs[n]];
    }
  }

  /** A selection gives each name of a member, and no other, a value of some member of that name. */
  lemma SelectionsChooseMembers(m: map<Text, Json>, pairs: Members)
    ensures IsSelection(m, pairs) <==>
      && (forall i | 0 <= i < |pairs| :: pairs[i].key in m)
      && forall k | k in m :: Member(k, m[k]) in pairs
  {
    forall k, v ensures v in ValuesOf(pairs, k) <==> Member(k, v) in pairs {
      ValuesAreTheMembers(pairs, k, v);
    }
    if IsSelection(m, pairs) {
      forall i | 0 <= i < |pairs| ensures pairs[i].key in m {
        assert pairs[i].value in ValuesOf(pairs, pairs[i].key);
      }
    }
    forall k | ValuesOf(pairs, k) != [] ensures exists i :: 0 <= i < |pairs| && pairs[i].key == k {
      assert ValuesOf(pairs, k)[0] in ValuesOf(pairs, k);
    }
  }

  // ----- Products of value lists -----

  /** `itertools.product`: one value from each list, the last list varying fastest. */
  function Product(lists: seq<seq<Json>>): seq<seq<Json>> {
    if lists == [] then [[]] else PrependEach(lists[0], Product(lists[1..]))
  }

  function PrependEach(heads: seq<Json>, tails: seq<seq<Json>>): (r: seq<seq<Json>>)
    ensures |r| == |heads| * |tails|
  {
    if heads == [] then []
    else
      var these := seq(|tails|, i requires 0 <= i < |tails| => [heads[0]] + tails[i]);
      these + PrependEach(heads[1..], tails)
  }

  function Count(lists: seq<seq<Json>>): nat {
    if lists == [] then 1 else |lists[0]| * Count(lists[1..])
  }

  lemma {:induction false} PrependEachMembers(heads: seq<Json>, tails: seq<seq<Json>>, s: seq<Json>)
    ensures s in PrependEach(heads, tails) <==> s != [] && s[0] in heads && s[1..] in tails
  {
    if heads != [] {
      var these := seq(|tails|, i requires 0 <= i < |tails| => [heads[0]] + tails[i]);
      PrependEachMembers(heads[1..], tails, s);
      assert s in these <==> s != [] && s[0] == heads[0] && s[1..] in tails by {
        if s in these {
          var i :| 0 <= i < |these| && these[i] == s;
          assert s[1..] == tails[i];
        }
        if s != [] && s[0] == heads[0] && s[1..] in tails {
          var i :| 0 <= i < |tails| && tails[i] == s[1..];
          assert these[i] == [heads[0]] + s[1..] == s;
        }
      }
      assert s != [] ==> (s[0] in heads <==> s[0] == heads[0] || s[0] in heads[1..]);
    }
  }

  /** The product holds exactly the choices of one value per list, Count many. */
  lemma {:induction false} ProductMembers(lists: seq<seq<Json>>, s: seq<Json>)
    ensures s in Product(lists) <==> |s| == |lists| && forall i | 0 <= i < |s| :: s[i] in lists[i]
    ensures |Product(lists)| == Count(lists)
  {
    if lists != [] {
      var rest := lists[1..];
      PrependEachMembers(lists[0], Product(rest), s);
      ProductMembers(rest, if s == [] then [] else s[1..]);
      if s != [] {
        assert forall i | 0 <= i < |s| - 1 :: s[1..][i] == s[i + 1];
        assert forall i | 0 <= i < |lists| - 1 :: rest[i] == lists[i + 1];
        if |s| == |lists| && s[0] in lists[0] && forall i | 0 <= i < |s[1..]| :: s[1..][i] in rest[i] {
          forall i | 0 <= i < |s| ensures s[i] in lists[i] {
            assert i > 0 ==> s[1..][i - 1] in rest[i - 1];
          }
        }
      }
    }
  }

  // ----- From choices to selections -----

  /** `dict.update(zip(keys, choice))`. */
  function Updated(current: map<Text, Json>, keys: seq<Text>, choice: seq<Json>): map<Text, Json>
    requires |keys| == |choice|
  {
    if keys == [] then current
    else Updated(current, keys[..|keys| - 1], choice[..|keys| - 1])[keys[|keys| - 1] := choice[|keys| - 1]]
  }

  ghost predicate Distinct(keys: seq<Text>) { forall i, j | 0 <= i < j < |keys| :: keys[i] != keys[j] }

  lemma {:induction false} UpdatedLookup(current: map<Text, Json>, keys: seq<Text>, choice: seq<Json>)
    requires |keys| == |choice| && Distinct(keys)
    ensures var u := Updated(current, keys, choice);
      && (forall k :: k in u <==> k in current || k in keys)
      && (forall k | k in current && k !in keys :: u[k] == current[k])
      && (forall i | 0 <= i < |keys| :: u[keys[i]] == choice[i])
  {
    if keys != [] {
      var n := |keys| - 1;
      UpdatedLookup(current, keys[..n], choice[..n]);
      assert keys == keys[..n] + [keys[n]];
      forall i | 0 <= i < |keys| ensures Updated(current, keys, choice)[keys[i]] == choice[i] {
        assert i < n ==> keys[..n][i] == keys[i] && keys[i] != keys[n];
      }
    }
  }

  // ----- Grouping the members by name -----

  /** The distinct names, in order of first appearance. */
  function Names(pairs: Members): seq<Text> {
    if pairs == [] then []
    else
      var front, k := Names(pairs[..|pairs| - 1]), pairs[|pairs| - 1].key;
      if k in front then front else front + [k]
  }

  /** The values of each name. */
  function Groups(pairs: Members): map<Text, seq<Json>> {
    if pairs == [] then map[]
    else
      var front, Member(k, v) := Groups(pairs[..|pairs| - 1]), pairs[|pairs| - 1];
      front[k := (if k in front then front[k] else []) + [v]]
  }

  /** The mapping in which a later member replaces an earlier one of the same name. */
  function LastWins(pairs: Members): map<Text, Json> {
    if pairs == [] then map[] else LastWins(pairs[..|pairs| - 1])[pairs[|pairs| - 1].key := pairs[|pairs| - 1].value]
  }

  lemma {:induction false} Lookup(pairs: Members, k: Text)
    ensures k in Names(pairs) <==> ValuesOf(pairs, k) != []
    ensures k in Groups(pairs) <==> ValuesOf(pairs, k) != []
    ensures k in LastWins(pairs) <==> ValuesOf(pairs, k) != []
    ensures ValuesOf(pairs, k) != [] ==>
      Groups(pairs)[k] == ValuesOf(pairs, k) && LastWins(pairs)[k] == ValuesOf(pairs, k)[|ValuesOf(pairs, k)| - 1]
  {
    if pairs != [] {
      Lookup(pairs[..|pairs| - 1], k);
    }
  }

  lemma {:induction false} NamesAreDistinct(pairs: Members)
    ensures Distinct(Names(pairs))
  {
    if pairs != [] {
      NamesAreDistinct(pairs[..|pairs| - 1]);
    }
  }

  /** The names with more than one value. */
  function Duplicated(pairs: Members, keys: seq<Text>): (d: seq<Text>)
    ensures forall i | 0 <= i < |d| :: d[i] in keys && |ValuesOf(pairs, d[i])| > 1
  {
    if keys == [] then []
    else
      var k := keys[|keys| - 1];
      var front := Duplicated(pairs, keys[..|keys| - 1]);
      if |ValuesOf(pairs, k)| > 1 then front + [k] else front
  }

  lemma {:induction false} DuplicatedHoldsAll(pairs: Members, keys: seq<Text>, k: Text)
    requires k in keys && |ValuesOf(pairs, k)| > 1
    ensures k in Duplicated(pairs, keys)
  {
    var front, last := keys[..|keys| - 1], keys[|keys| - 1];
    assert keys == front + [last];
    if k != last {
      DuplicatedHoldsAll(pairs, front, k);
    } else {
      assert Duplicated(pairs, keys) == Duplicated(pairs, front) + [k];
    }
  }

  lemma {:induction false} DuplicatedIsDistinct(pairs: Members, keys: seq<Text>)
    requires Distinct(keys)
    ensures Distinct(Duplicated(pairs, keys))
  {
    if keys != [] {
      DuplicatedIsDistinct(pairs, keys[..|keys| - 1]);
    }
  }

  function DuplicateNames(pairs: Members): seq<Text> { Duplicated(pairs, Names(pairs)) }

  function Lists(pairs: Members, keys: seq<Text>): (ls: seq<seq<Json>>)
    ensures |ls| == |keys| && forall i | 0 <= i < |keys| :: ls[i] == ValuesOf(pairs, keys[i])
  {
    if keys == [] then [] else Lists(pairs, keys[..|keys| - 1]) + [ValuesOf(pairs, keys[|keys| - 1])]
  }

  function Choices(pairs: Members): seq<seq<Json>> { Product(Lists(pairs, DuplicateNames(pairs))) }

  /** The reading a choice of values for the duplicate names gives. */
  function Chosen(pairs: Members, choice: seq<Json>): map<Text, Json>
    requires |choice| == |DuplicateNames(pairs)|
  {
    Updated(LastWins(pairs), DuplicateNames(pairs), choice)
  }

  /** What a choice says about one name. */
  lemma ChosenLookup(pairs: Members, choice: seq<Json>, k: Text)
    requires |choice| == |DuplicateNames(pairs)|
    ensures k in Chosen(pairs, choice) <==> ValuesOf(pairs, k) != []
    ensures forall i | 0 <= i < |choice| && DuplicateNames(pairs)[i] == k :: Chosen(pairs, choice)[k] == choice[i]
    ensures |ValuesOf(pairs, k)| == 1 ==> Chosen(pairs, choice)[k] == ValuesOf(pairs, k)[0]
    ensures |ValuesOf(pairs, k)| > 1 ==> k in DuplicateNames(pairs)
  {
    var dups := DuplicateNames(pairs);
    Lookup(pairs, k);
    NamesAreDistinct(pairs);
    DuplicatedIsDistinct(pairs, Names(pairs));
    UpdatedLookup(LastWins(pairs), dups, choice);
    if |ValuesOf(pairs, k)| > 1 {
      DuplicatedHoldsAll(pairs, Names(pairs), k);
    }
    if k in dups {
      var i :| 0 <= i < |dups| && dups[i] == k;
    }
  }

  lemma ChoiceFits(pairs: Members, choice: seq<Json>)
    requires choice in Choices(pairs)
    ensures |choice| == |DuplicateNames(pairs)|
  {
    ProductMembers(Lists(pairs, DuplicateNames(pairs)), choice);
  }

  lemma ChoiceIsASelection(pairs: Members, choice: seq<Json>)
    requires choice in Choices(pairs)
    ensures |choice| == |DuplicateNames(pairs)| && IsSelection(Chosen(pairs, choice), pairs)
  {
    var dups := DuplicateNames(pairs);
    ProductMembers(Lists(pairs, dups), choice);
    var m := Chosen(pairs, choice);
    forall k ensures k in m <==> ValuesOf(pairs, k) != [] {
      ChosenLookup(pairs, choice, k);
    }
    forall k | k in m ensures m[k] in ValuesOf(pairs, k) {
      ChosenLookup(pairs, choice, k);
      if |ValuesOf(pairs, k)| > 1 {
        var i :| 0 <= i < |dups| && dups[i] == k;
        assert choice[i] in Lists(pairs, dups)[i];
      }
    }
  }

  /** A selection, read at the duplicate names, is one of the choices. */
  lemma ChoiceOfSelection(pairs: Members, m: map<Text, Json>) returns (choice: seq<Json>)
    requires IsSelection(m, pairs)
    ensures choice in Choices(pairs) && |choice| == |DuplicateNames(pairs)|
    ensures forall i | 0 <= i < |choice| :: DuplicateNames(pairs)[i] in m && choice[i] == m[DuplicateNames(pairs)[i]]
  {
    var dups := DuplicateNames(pairs);
    choice := seq(|dups|, i requires 0 <= i < |dups| => if dups[i] in m then m[dups[i]] else Scalar);
    forall i | 0 <= i < |choice| ensures dups[i] in m && choice[i] in Lists(pairs, dups)[i] {
      assert |ValuesOf(pairs, dups[i])| > 1;
    }
    ProductMembers(Lists(pairs, dups), choice);
  }

  lemma ChosenAgrees(pairs: Members, m: map<Text, Json>, choice: seq<Json>, k: Text)
    requires IsSelection(m, pairs) && |choice| == |DuplicateNames(pairs)|
    requires forall i | 0 <= i < |choice| :: DuplicateNames(pairs)[i] in m && choice[i] == m[DuplicateNames(pairs)[i]]
    ensures k in Chosen(pairs, choice) <==> k in m
    ensures k in m ==> Chosen(pairs, choice)[k] == m[k]
  {
    ChosenLookup(pairs, choice, k);
    if k in m {
      assert m[k] in ValuesOf(pairs, k);
      if |ValuesOf(pairs, k)| > 1 {
        var i :| 0 <= i < |choice| && DuplicateNames(pairs)[i] == k;
      }
    }
  }

  lemma SelectionIsAChoice(pairs: Members, m: map<Text, Json>) returns (choice: seq<Json>)
    requires IsSelection(m, pairs)
    ensures choice in Choices(pairs) && |choice| == |DuplicateNames(pairs)| && Chosen(pairs, choice) == m
  {
    choice := ChoiceOfSelection(pairs, m);
    var u := Chosen(pairs, choice);
    forall k ensures (k in u <==> k in m) && (k in m ==> u[k] == m[k]) {
      ChosenAgrees(pairs, m, choice, k);
    }
    assert u.Keys == m.Keys;
  }

  /** Choosing among the duplicates on top of last-wins gives exactly the selections of the object. */
  lemma ChoicesAreSelections(pairs: Members, m: map<Text, Json>)
    ensures IsSelection(m, pairs) <==>
      exists choice :: choice in Choices(pairs) && |choice| == |DuplicateNames(pairs)| && Chosen(pairs, choice) == m
  {
    if IsSelection(m, pairs) {
      var choice := SelectionIsAChoice(pairs, m);
    }
    if choice :| choice in Choices(pairs) && |choice| == |DuplicateNames(pairs)| && Chosen(pairs, choice) == m {
      ChoiceIsASelection(pairs, choice);
    }
  }
}
