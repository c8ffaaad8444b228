/** The admin dashboard's edit form: the checkbox toggle, the form built
    when the modal opens and the request built on save. Form values are
    JSON-like values; a missing key stands for `undefined`. */
module AdminForm {

  import opened Wrappers
  import opened Sequences

  datatype Json =
    | JNull
    | JBool(b: bool)
    | JNum(n: int)
    | JStr(s: string)
    | JArr(items: seq<Json>)
    | JObj(fields: map<string, Json>)

  type Form = map<string, Json>

  /** JavaScript truthiness; an array or an object is always truthy. */
  predicate Truthy(v: Json)
  {
    match v
    case JNull => false
    case JBool(b) => b
    case JNum(n) => n != 0
    case JStr(s) => s != ""
    case JArr(_) => true
    case JObj(_) => true
  }

  const SelectedCars: string := "selectedCars"
  const CarsKey: string := "cars"
  const PlateNumberKey: string := "plateNumber"
  const UsersTab: string := "users"
  const ConfigTab: string := "config"

  /** `form[name] || []`: a missing or falsy value is the empty list; a
      truthy value that is not an array has no `includes`/`filter`, which
      throws (None). */
  function ListOf(form: Form, name: string): (r: Option<seq<Json>>)
    ensures name !in form ==> r == Some([])
    ensures name in form && form[name].JArr? ==> r == Some(form[name].items)
  {
    if name !in form || !Truthy(form[name]) then Some([])
    else if form[name].JArr? then Some(form[name].items)
    else None
  }

  /** `xs.filter(x => x !== v)`. */
  function Remove(xs: seq<Json>, v: Json): seq<Json>
  {
    if xs == [] then []
    else (if xs[0] != v then [xs[0]] else []) + Remove(xs[1..], v)
  }

  /** Removal drops every occurrence of the value. */
  lemma {:induction false} RemoveDrops(xs: seq<Json>, v: Json)
    ensures v !in Remove(xs, v)
  {
    if xs != [] {
      RemoveDrops(xs[1..], v);
    }
  }

  /** Removal keeps every other element as often as it occurs. */
  lemma {:induction false} RemoveCounts(xs: seq<Json>, v: Json)
    ensures forall x :: x != v ==> multiset(Remove(xs, v))[x] == multiset(xs)[x]
  {
    if xs != [] {
      RemoveCounts(xs[1..], v);
      assert xs == [xs[0]] + xs[1..];
    }
  }

  /** Removal keeps the order of the remaining elements. */
  lemma {:induction false} RemoveKeepsOrder(xs: seq<Json>, v: Json)
    ensures IsSubsequence(Remove(xs, v), xs)
  {
    if xs != [] {
      var n := |xs| - 1;
      RemoveKeepsOrder(xs[..n], v);
      assert xs == xs[..n] + [xs[n]];
      RemoveAppend(xs[..n], [xs[n]], v);
      var rest := Remove(xs[..n], v);
      assert Remove([xs[n]], v) == if xs[n] != v then [xs[n]] else [];
      if xs[n] != v {
        assert Remove(xs, v) == rest + [xs[n]];
        assert (rest + [xs[n]])[..|rest|] == rest;
      } else {
        assert Remove(xs, v) == rest;
        SubsequenceDrop(rest, xs);
      }
    }
  }

  /** Removal of a present value shortens the list. */
  lemma {:induction false} RemoveShortens(xs: seq<Json>, v: Json)
    ensures |Remove(xs, v)| <= |xs|
    ensures v in xs ==> |Remove(xs, v)| < |xs|
  {
    if xs != [] {
      RemoveShortens(xs[1..], v);
      assert v in xs ==> xs[0] == v || v in xs[1..];
    }
  }

  /** Removing a value that is not there changes nothing. */
  lemma {:induction false} RemoveAbsent(xs: seq<Json>, v: Json)
    requires v !in xs
    ensures Remove(xs, v) == xs
  {
    if xs != [] {
      RemoveAbsent(xs[1..], v);
      assert xs == [xs[0]] + xs[1..];
    }
  }

  lemma {:induction false} RemoveAppend(xs: seq<Json>, ys: seq<Json>, v: Json)
    ensures Remove(xs + ys, v) == Remove(xs, v) + Remove(ys, v)
  {
    if xs != [] {
      RemoveAppend(xs[1..], ys, v);
      assert (xs + ys)[0] == xs[0];
      assert (xs + ys)[1..] == xs[1..] + ys;
      var head := if xs[0] != v then [xs[0]] else [];
      assert Remove(xs + ys, v) == head + (Remove(xs[1..], v) + Remove(ys, v));
      assert Remove(xs, v) == head + Remove(xs[1..], v);
    } else {
      assert xs + ys == ys;
    }
  }

  /** The checkbox toggle for a plate: a present value is removed, an
      absent one is appended; every other field is kept. */
  function HandleCheck(form: Form, listName: string, val: string): Option<Form>
  {
    match ListOf(form, listName)
    case None => None
    case Some(current) =>
      if JStr(val) in current then Some(form[listName := JArr(Remove(current, JStr(val)))])
      else Some(form[listName := JArr(current + [JStr(val)])])
  }

  /** The toggle fails exactly when the field holds a truthy non-array;
      otherwise the field becomes an array in which the value's membership
      is flipped, and no other field changes. A missing field counts as an
      empty list. */
  lemma HandleCheckFlips(form: Form, listName: string, val: string)
    ensures HandleCheck(form, listName, val).None? <==>
      (listName in form && Truthy(form[listName]) && !form[listName].JArr?)
    ensures HandleCheck(form, listName, val).Some? ==>
      var current := ListOf(form, listName).value;
      var f := HandleCheck(form, listName, val).value;
      && listName in f && f[listName].JArr?
      && (JStr(val) in f[listName].items <==> JStr(val) !in current)
      && f.Keys == form.Keys + {listName}
      && (forall k :: k in form && k != listName ==> f[k] == form[k])
    ensures listName !in form ==> HandleCheck(form, listName, val) == Some(form[listName := JArr([JStr(val)])])
  {
    var current := ListOf(form, listName);
    if current.Some? && JStr(val) in current.value {
      RemoveDrops(current.value, JStr(val));
    }
    assert [] + [JStr(val)] == [JStr(val)];
  }

  /** An absent plate is appended at the end. */
  lemma HandleCheckAppends(form: Form, listName: string, val: string)
    requires ListOf(form, listName).Some? && JStr(val) !in ListOf(form, listName).value
    ensures HandleCheck(form, listName, val) == Some(form[listName := JArr(ListOf(form, listName).value + [JStr(val)])])
  {
  }

  /** A present plate loses all its occurrences; the remaining values keep
      their multiplicity and their order. */
  lemma HandleCheckRemoves(form: Form, listName: string, val: string)
    requires ListOf(form, listName).Some? && JStr(val) in ListOf(form, listName).value
    ensures var current := ListOf(form, listName).value;
      var items := HandleCheck(form, listName, val).value[listName].items;
      && JStr(val) !in items
      && |items| < |current|
      && IsSubsequence(items, current)
      && (forall x :: x != JStr(val) ==> multiset(items)[x] == multiset(current)[x])
  {
    var current := ListOf(form, listName).value;
    RemoveDrops(current, JStr(val));
    RemoveCounts(current, JStr(val));
    RemoveKeepsOrder(current, JStr(val));
    RemoveShortens(current, JStr(val));
  }

  /** Checking a plate that was not selected and then unchecking it gives
      back the list as it was. */
  lemma CheckUncheckRestores(form: Form, listName: string, val: string)
    requires ListOf(form, listName).Some? && JStr(val) !in ListOf(form, listName).value
    ensures var once := HandleCheck(form, listName, val).value;
      HandleCheck(once, listName, val) == Some(once[listName := JArr(ListOf(form, listName).value)])
  {
    var current := ListOf(form, listName).value;
    var once := HandleCheck(form, listName, val).value;
    assert ListOf(once, listName) == Some(current + [JStr(val)]);
    assert JStr(val) in current + [JStr(val)];
    RemoveAppend(current, [JStr(val)], JStr(val));
    RemoveAbsent(current, JStr(val));
    assert Remove([JStr(val)], JStr(val)) == [];
    assert current + [] == current;
  }

  /** `c.plateNumber`: null throws; a value without the property gives
      `undefined`, which an array serialises as null. */
  function PlateNumberOf(c: Json): Option<Json>
  {
    match c
    case JNull => None
    case JObj(f) => Some(if PlateNumberKey in f then f[PlateNumberKey] else JNull)
    case _ => Some(JNull)
  }

  /** `cars.map(c => c.plateNumber)`. */
  function Plates(cars: seq<Json>): (r: Option<seq<Json>>)
    ensures r.None? <==> JNull in cars
    ensures r.Some? ==> |r.value| == |cars| && forall i :: 0 <= i < |cars| ==> Some(r.value[i]) == PlateNumberOf(cars[i])
  {
    if cars == [] then Some([])
    else match (PlateNumberOf(cars[0]), Plates(cars[1..]))
      case (Some(p), Some(ps)) => Some([p] + ps)
      case _ => None
  }

  /** `plates.map(plate => ({ plateNumber: plate }))`. */
  function CarRefs(plates: seq<Json>): (r: seq<Json>)
    ensures |r| == |plates|
    ensures forall i :: 0 <= i < |plates| ==> r[i] == JObj(map[PlateNumberKey := plates[i]])
  {
    if plates == [] then [] else [JObj(map[PlateNumberKey := plates[0]])] + CarRefs(plates[1..])
  }

  /** The car references built on save carry back exactly the plates. */
  lemma {:induction false} CarRefsPlates(plates: seq<Json>)
    ensures Plates(CarRefs(plates)) == Some(plates)
  {
    if plates != [] {
      CarRefsPlates(plates[1..]);
      assert CarRefs(plates) == [JObj(map[PlateNumberKey := plates[0]])] + CarRefs(plates[1..]);
      assert CarRefs(plates)[1..] == CarRefs(plates[1..]);
      assert plates == [plates[0]] + plates[1..];
    }
  }

  /** The form the modal starts with: defaults for a new item, a copy of an
      existing one, and for a user the plates of its cars under
      `selectedCars`. None when reading the cars throws. */
  function OpenModal(tab: string, item: Option<Form>): (r: Option<Form>)
    ensures item.None? && tab == UsersTab ==>
      r == Some(map["role" := JStr("EMPLOYEE"), SelectedCars := JArr([])])
    ensures item.None? && tab != UsersTab ==> r == Some(map["plateType" := JStr("COMPANY")])
    ensures item.Some? && tab != UsersTab ==> r == item
    ensures item.Some? && tab == UsersTab ==>
      (r.None? <==> CarsKey in item.value && Truthy(item.value[CarsKey]) &&
                    (!item.value[CarsKey].JArr? || JNull in item.value[CarsKey].items))
    ensures item.Some? && tab == UsersTab && r.Some? ==>
      && r.value.Keys == item.value.Keys + {SelectedCars}
      && (forall k :: k in item.value && k != SelectedCars ==> r.value[k] == item.value[k])
      && r.value[SelectedCars].JArr?
      && (CarsKey !in item.value || !Truthy(item.value[CarsKey]) ==> r.value[SelectedCars] == JArr([]))
      && (CarsKey in item.value && item.value[CarsKey].JArr? ==>
            Some(r.value[SelectedCars].items) == Plates(item.value[CarsKey].items))
  {
    match item
    case None =>
      if tab == UsersTab then Some(map["role" := JStr("EMPLOYEE"), SelectedCars := JArr([])])
      else Some(map["plateType" := JStr("COMPANY")])
    case Some(it) =>
      if tab != UsersTab then Some(it)
      else if CarsKey !in it || !Truthy(it[CarsKey]) then Some(it[SelectedCars := JArr([])])
      else if !it[CarsKey].JArr? then None
      else match Plates(it[CarsKey].items)
        case None => None
        case Some(ps) => Some(it[SelectedCars := JArr(ps)])
  }

  /** A POST the dashboard sends. */
  datatype Request = Request(path: string, body: Form)

  /** The save request: the config form is posted as it is; for a user,
      `selectedCars` becomes `cars`, a list of `{plateNumber}` objects. None
      when the mapping throws, which is caught and nothing is posted. */
  function HandleSave(tab: string, form: Form): Option<Request>
  {
    if tab == ConfigTab then Some(Request("/admin/config", form))
    else if tab == UsersTab && SelectedCars in form && Truthy(form[SelectedCars]) then
      if form[SelectedCars].JArr? then
        Some(Request("/admin/" + tab, (form - {SelectedCars})[CarsKey := JArr(CarRefs(form[SelectedCars].items))]))
      else None
    else Some(Request("/admin/" + tab, form))
  }

  /** For a user with a selected-car list, the payload's `cars` has one
      `{plateNumber}` object per selected plate, in the same order,
      `selectedCars` is gone and every other field is kept. */
  lemma SaveUserPayload(form: Form)
    requires SelectedCars in form && form[SelectedCars].JArr?
    ensures var req := HandleSave(UsersTab, form);
      var selected := form[SelectedCars].items;
      && req.Some? && req.value.path == "/admin/users"
      && SelectedCars !in req.value.body
      && CarsKey in req.value.body && req.value.body[CarsKey].JArr?
      && |req.value.body[CarsKey].items| == |selected|
      && (forall i :: 0 <= i < |selected| ==> req.value.body[CarsKey].items[i] == JObj(map[PlateNumberKey := selected[i]]))
      && (forall k :: k in form && k != SelectedCars && k != CarsKey ==> k in req.value.body && req.value.body[k] == form[k])
  {
    assert "/admin/" + UsersTab == "/admin/users";
  }

  /** Any other save posts the form unchanged to the tab's endpoint. */
  lemma SaveOtherPayload(tab: string, form: Form)
    requires tab != UsersTab || SelectedCars !in form || !Truthy(form[SelectedCars])
    ensures HandleSave(tab, form).Some?
    ensures HandleSave(tab, form).value.body == form
    ensures tab == ConfigTab ==> HandleSave(tab, form).value.path == "/admin/config"
  {
  }

  /** Opening an existing user and saving right away posts the same plate
      list the user's cars had, and keeps every other field. */
  lemma OpenSaveRoundTrip(item: Form)
    requires CarsKey in item && item[CarsKey].JArr? && JNull !in item[CarsKey].items
    ensures OpenModal(UsersTab, Some(item)).Some?
    ensures var req := HandleSave(UsersTab, OpenModal(UsersTab, Some(item)).value);
      && req.Some?
      && CarsKey in req.value.body && req.value.body[CarsKey].JArr?
      && Plates(req.value.body[CarsKey].items) == Plates(item[CarsKey].items)
      && SelectedCars !in req.value.body
      && (forall k :: k in item && k != SelectedCars && k != CarsKey ==> k in req.value.body && req.value.body[k] == item[k])
  {
    var ps := Plates(item[CarsKey].items).value;
    var form := OpenModal(UsersTab, Some(item)).value;
    assert form[SelectedCars] == JArr(ps);
    CarRefsPlates(ps);
    SaveUserPayload(form);
  }
}
