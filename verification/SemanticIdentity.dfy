/** The identity of a canonical project state: all of it but the two collection times. */
module SemanticIdentity {
  import opened TextModel

  datatype Json = Obj(fields: map<string, Json>) | Arr(items: seq<Json>) | Scalar(text: string)

  /** A path as the source builds it: member names, and "[]" for any item of a list. */
  type Names = seq<string>

  const COLLECTION_TIMES: set<Names> := {["observed_at"], ["freshness", "observed_at"]}

  function Identity(v: Json, path: Names): Json
    decreases v
  {
    match v
    case Obj(fields) =>
      Obj(map key | key in fields && path + [key] !in COLLECTION_TIMES :: Identity(fields[key], path + [key]))
    case Arr(items) =>
      Arr(seq(|items|, i requires 0 <= i < |items| => Identity(items[i], path + ["[]"])))
    case Scalar(_) => v
  }

  // ----- What a value holds at a place -----

  datatype Place = Member(key: string) | Item(index: nat)

  function NameOf(p: Place): string { match p case Member(key) => key case Item(_) => "[]" }

  /** What can be seen of a value without looking further down. */
  datatype Shape = Object | List(length: nat) | Leaf(text: string)

  predicate HasPlace(v: Json, p: Place) {
    match p
    case Member(key) => v.Obj? && key in v.fields
    case Item(i) => v.Arr? && i < |v.items|
  }

  function Inside(v: Json, p: Place): (r: Json)
    requires HasPlace(v, p)
    ensures r < v
  {
    match p
    case Member(key) => v.fields[key]
    case Item(i) => v.items[i]
  }

  function ShapeOf(v: Json): Shape {
    match v
    case Obj(_) => Object
    case Arr(items) => List(|items|)
    case Scalar(text) => Leaf(text)
  }

  function At(v: Json, places: seq<Place>): Option<Shape>
    decreases |places|
  {
    if places == [] then Some(ShapeOf(v))
    else if HasPlace(v, places[0]) then At(Inside(v, places[0]), places[1..])
    else None
  }

  /** The way down leads to, or through, one of the collection times of an object. */
  predicate IsTime(path: Names, places: seq<Place>)
    decreases |places|
  {
    places != [] && (
      (places[0].Member? && path + [places[0].key] in COLLECTION_TIMES)
      || IsTime(path + [NameOf(places[0])], places[1..]))
  }

  lemma {:induction false} NoTimeFurtherDown(path: Names, places: seq<Place>)
    requires |path| >= 2
    ensures !IsTime(path, places)
    decreases |places|
  {
    if places != [] {
      NoTimeFurtherDown(path + [NameOf(places[0])], places[1..]);
      assert places[0].Member? ==> |path + [places[0].key]| >= 3;
    }
  }

  lemma TimeOneNameDown(name: string, places: seq<Place>)
    ensures IsTime([name], places) <==> places != [] && name == "freshness" && places[0] == Member("observed_at")
  {
    if places != [] {
      NoTimeFurtherDown([name] + [NameOf(places[0])], places[1..]);
      if places[0].Member? {
        var path := [name] + [places[0].key];
        assert path[0] == name && path[1] == places[0].key;
        assert path in COLLECTION_TIMES <==> path == ["freshness", "observed_at"];
      }
    }
  }

  /** Only `observed_at`, at the top and inside `freshness`, is a collection time. */
  lemma TimesSpelled(places: seq<Place>)
    ensures IsTime([], places) <==>
      places != [] && (
        || places[0] == Member("observed_at")
        || (|places| >= 2 && places[0] == Member("freshness") && places[1] == Member("observed_at")))
  {
    if places != [] {
      TimeOneNameDown(NameOf(places[0]), places[1..]);
      assert [] + [NameOf(places[0])] == [NameOf(places[0])];
      assert "freshness" != "[]";
      if places[0].Member? {
        var path := [] + [places[0].key];
        assert path[0] == places[0].key && (path in COLLECTION_TIMES <==> path == ["observed_at"]);
      }
    }
  }

  lemma IdentityGoesInside(v: Json, path: Names, p: Place)
    requires !(p.Member? && path + [p.key] in COLLECTION_TIMES)
    ensures HasPlace(Identity(v, path), p) == HasPlace(v, p)
    ensures HasPlace(v, p) ==> Inside(Identity(v, path), p) == Identity(Inside(v, p), path + [NameOf(p)])
  {
  }

  lemma {:induction false} IdentityAt(v: Json, path: Names, places: seq<Place>)
    requires !IsTime(path, places)
    ensures At(Identity(v, path), places) == At(v, places)
    decreases |places|
  {
    if places != [] {
      IdentityGoesInside(v, path, places[0]);
      if HasPlace(v, places[0]) {
        IdentityAt(Inside(v, places[0]), path + [NameOf(places[0])], places[1..]);
      }
    }
  }

  lemma {:induction false} IdentityHidesTimes(v: Json, path: Names, places: seq<Place>)
    requires IsTime(path, places)
    ensures At(Identity(v, path), places) == None
    decreases |places|
  {
    var p := places[0];
    if HasPlace(Identity(v, path), p) {
      IdentityHidesTimes(Inside(v, p), path + [NameOf(p)], places[1..]);
    }
  }

  ghost predicate SameEverywhere(a: Json, b: Json) { forall places :: At(a, places) == At(b, places) }

  lemma SameInside(a: Json, b: Json, p: Place)
    requires SameEverywhere(a, b) && HasPlace(a, p)
    ensures HasPlace(b, p) && SameEverywhere(Inside(a, p), Inside(b, p))
  {
    var one := [p];
    assert one[0] == p && one[1..] == [];
    assert At(a, one) == At(Inside(a, p), []) && At(a, one) == At(b, one);
    assert HasPlace(b, p);
    forall places ensures At(Inside(a, p), places) == At(Inside(b, p), places) {
      assert ([p] + places)[1..] == places;
      assert At(a, [p] + places) == At(b, [p] + places);
    }
  }

  lemma {:induction false} SameEverywhereIsEqual(a: Json, b: Json)
    requires SameEverywhere(a, b)
    ensures a == b
    decreases a
  {
    assert At(a, []) == At(b, []);
    match a
    case Obj(fields) =>
      forall key | key in fields ensures key in b.fields && fields[key] == b.fields[key] {
        SameInside(a, b, Member(key));
        SameEverywhereIsEqual(fields[key], b.fields[key]);
      }
      forall key | key in b.fields ensures key in fields {
        SameInside(b, a, Member(key));
      }
      assert fields == b.fields;
    case Arr(items) =>
      forall i | 0 <= i < |items| ensures items[i] == b.items[i] {
        SameInside(a, b, Item(i));
        SameEverywhereIsEqual(items[i], b.items[i]);
      }
    case Scalar(_) =>
  }

  /** Two states agree at every place but the two collection times. */
  ghost predicate AgreeButTimes(a: Json, b: Json) {
    forall places :: !IsTime([], places) ==> At(a, places) == At(b, places)
  }

  lemma SameIdentityAgrees(a: Json, b: Json)
    requires Identity(a, []) == Identity(b, [])
    ensures AgreeButTimes(a, b)
  {
    forall places | !IsTime([], places) ensures At(a, places) == At(b, places) {
      IdentityAt(a, [], places);
      IdentityAt(b, [], places);
    }
  }

  lemma AgreeingHasSameIdentity(a: Json, b: Json)
    requires AgreeButTimes(a, b)
    ensures Identity(a, []) == Identity(b, [])
  {
    forall places ensures At(Identity(a, []), places) == At(Identity(b, []), places) {
      if IsTime([], places) {
        IdentityHidesTimes(a, [], places);
        IdentityHidesTimes(b, [], places);
      } else {
        IdentityAt(a, [], places);
        IdentityAt(b, [], places);
      }
    }
    SameEverywhereIsEqual(Identity(a, []), Identity(b, []));
  }

  /**
    * Two states have the same identity exactly when they agree at every place but the two collection
    * times: nested observation times still count.
    */
  lemma IdentityForgetsOnlyTheTimes(a: Json, b: Json)
    ensures Identity(a, []) == Identity(b, []) <==> AgreeButTimes(a, b)
  {
    if Identity(a, []) == Identity(b, []) {
      SameIdentityAgrees(a, b);
    } else if AgreeButTimes(a, b) {
      AgreeingHasSameIdentity(a, b);
    }
  }

  /** The identity of an identity is itself. */
  lemma IdentityIsIdempotent(v: Json)
    ensures Identity(Identity(v, []), []) == Identity(v, [])
  {
    forall places | !IsTime([], places) ensures At(Identity(v, []), places) == At(v, places) {
      IdentityAt(v, [], places);
    }
    IdentityForgetsOnlyTheTimes(Identity(v, []), v);
  }
}
