/**
 * The popup list page: the delete / duplicate / toggle actions on the stored
 * `lps_popups` array, the statistics cards and the per-popup rule summary.
 * A PHP array keyed by popup id is an insertion-ordered list of keys plus the
 * records they map to.
 */
module PopupList {
  import opened Wrappers
  import opened Text
  import opened Records
  import opened Filtering
  import opened PageRules

  /** The stored popups: keys in array order, and the record under each key. */
  datatype Store = Store(order: seq<string>, popups: map<string, Popup>)

  /** No key is listed twice. */
  ghost predicate Distinct(order: seq<string>) {
    forall i, j :: 0 <= i < j < |order| ==> order[i] != order[j]
  }

  /** Keys are distinct and are exactly the keys of the map. */
  ghost predicate WellFormed(s: Store) {
    && Distinct(s.order)
    && (forall id :: id in s.popups <==> id in s.order)
  }

  /** The records in array order, as a foreach visits them. */
  function Values(s: Store): seq<Popup>
    requires WellFormed(s)
  {
    Listed(s.order, s.popups)
  }

  // ---------------------------------------------------------------- array primitives

  /** The key list with one key taken out. */
  function Without(order: seq<string>, id: string): (r: seq<string>)
    ensures forall x :: x in r <==> x in order && x != id
    ensures |r| <= |order|
  {
    if order == [] then []
    else if order[0] == id then Without(order[1..], id)
    else [order[0]] + Without(order[1..], id)
  }

  /** unset($popups[$id]). */
  function Unset(s: Store, id: string): Store {
    if id in s.popups then Store(Without(s.order, id), s.popups - {id}) else s
  }

  /** $popups[$id] = $p: an existing key keeps its place, a new one goes at the end. */
  function Put(s: Store, id: string, p: Popup): Store {
    Store(if id in s.popups then s.order else s.order + [id], s.popups[id := p])
  }

  // ---------------------------------------------------------------- actions

  /** The id scheme of new and duplicated popups: "popup_" followed by the Unix time. */
  function NewId(time: int): string {
    "popup_" + IntToString(time)
  }

  /** The localStorage key a popup with this id is given. */
  function StorageKeyFor(id: string): string {
    id + "_shown"
  }

  /** The duplicated record: new id, name with " (Copy)", fresh storage key, everything else copied. */
  function Copy(p: Popup, newId: string): (c: Popup)
    ensures c.id == newId && c.name == p.name + " (Copy)" && c.storageKey == newId + "_shown"
    ensures c == p.(id := c.id, name := c.name, storageKey := c.storageKey)
  {
    p.(id := newId, name := p.name + " (Copy)", storageKey := StorageKeyFor(newId))
  }

  function Delete(s: Store, id: string): Store {
    Unset(s, id)
  }

  function Duplicate(s: Store, id: string, time: int): Store {
    if id in s.popups then Put(s, NewId(time), Copy(s.popups[id], NewId(time))) else s
  }

  function Toggle(s: Store, id: string): Store {
    if id in s.popups then Put(s, id, s.popups[id].(enabled := !s.popups[id].enabled)) else s
  }

  /** The ids the plugin generates survive sanitize_key, so the action links address them. */
  lemma GeneratedIdsAreKeys(time: int)
    ensures SanitizeKey(NewId(time)) == NewId(time)
  {
    var digits := if time < 0 then NatToString(-time) else NatToString(time);
    assert forall i :: 0 <= i < |digits| ==> IsKeyChar(digits[i]);
    assert forall i :: 0 <= i < |NewId(time)| ==> IsKeyChar(NewId(time)[i]);
    SanitizeKeyKeeps(NewId(time));
  }

  /** The switch on $_GET['action'], applied to sanitize_key($_GET['popup_id']); any other action changes nothing. */
  function Act(s: Store, action: string, rawId: string, time: int): Store {
    var id := SanitizeKey(rawId);
    if action == "delete" then Delete(s, id)
    else if action == "duplicate" then Duplicate(s, id, time)
    else if action == "toggle" then Toggle(s, id)
    else s
  }

  // ---------------------------------------------------------------- properties of the actions

  lemma {:induction false} WithoutDistinct(order: seq<string>, id: string)
    requires Distinct(order)
    ensures Distinct(Without(order, id))
  {
    if order != [] {
      WithoutDistinct(order[1..], id);
      var rest := Without(order[1..], id);
      assert order[0] !in order[1..];
      if order[0] != id {
        assert order[0] !in rest;
        var r := [order[0]] + rest;
        assert Without(order, id) == r;
        forall i, j | 0 <= i < j < |r| ensures r[i] != r[j] {
          if i == 0 {
            assert r[j] == rest[j - 1] && rest[j - 1] in rest;
          } else {
            assert r[i] == rest[i - 1] && r[j] == rest[j - 1] && rest[i - 1] != rest[j - 1];
          }
        }
      }
    }
  }

  /**
   * delete removes exactly the given id, keeps every other record and the
   * order of the others; an unknown id changes nothing.
   */
  lemma DeleteSpec(s: Store, id: string)
    requires WellFormed(s)
    ensures WellFormed(Delete(s, id))
    ensures id !in Delete(s, id).popups
    ensures forall other :: other != id ==>
      (other in Delete(s, id).popups <==> other in s.popups)
      && (other in s.popups ==> Delete(s, id).popups[other] == s.popups[other])
    ensures Delete(s, id).order == Without(s.order, id)
    ensures id !in s.popups ==> Delete(s, id) == s
  {
    WithoutDistinct(s.order, id);
    if id !in s.popups {
      WithoutAbsent(s.order, id);
    }
  }

  lemma {:induction false} WithoutAbsent(order: seq<string>, id: string)
    requires id !in order
    ensures Without(order, id) == order
  {
    if order != [] {
      WithoutAbsent(order[1..], id);
    }
  }

  /**
   * duplicate stores the copy under the new id (overwriting a record already
   * there, in its place, or appending otherwise) and leaves every other record
   * unchanged; an unknown source id changes nothing.
   */
  lemma DuplicateSpec(s: Store, id: string, time: int)
    requires WellFormed(s)
    ensures WellFormed(Duplicate(s, id, time))
    ensures id !in s.popups ==> Duplicate(s, id, time) == s
    ensures id in s.popups ==>
      var d := Duplicate(s, id, time);
      var n := NewId(time);
      && d.popups[n] == Copy(s.popups[id], n)
      && (forall other :: other != n ==>
            (other in d.popups <==> other in s.popups)
            && (other in s.popups ==> d.popups[other] == s.popups[other]))
      && d.order == (if n in s.popups then s.order else s.order + [n])
  {
  }

  /** toggle flips `enabled` of that record only. */
  lemma ToggleSpec(s: Store, id: string)
    requires WellFormed(s)
    ensures WellFormed(Toggle(s, id))
    ensures Toggle(s, id).order == s.order && Toggle(s, id).popups.Keys == s.popups.Keys
    ensures id in s.popups ==>
      Toggle(s, id).popups[id] == s.popups[id].(enabled := !s.popups[id].enabled)
    ensures forall other :: other in s.popups && other != id ==> Toggle(s, id).popups[other] == s.popups[other]
  {
  }

  /** Toggling twice restores the stored array. */
  lemma ToggleTwice(s: Store, id: string)
    ensures Toggle(Toggle(s, id), id) == s
  {
    if id in s.popups {
      var p := s.popups[id];
      assert p.(enabled := !p.enabled).(enabled := !!p.enabled) == p;
      assert s.popups[id := p] == s.popups;
    }
  }

  // ---------------------------------------------------------------- statistics

  /** count($popups). */
  function Total(s: Store): nat {
    |s.order|
  }

  /** The number of keys in `order` whose record is enabled. */
  function EnabledIn(order: seq<string>, popups: map<string, Popup>): (n: nat)
    requires forall i :: 0 <= i < |order| ==> order[i] in popups
    ensures n <= |order|
  {
    if order == [] then 0
    else (if popups[order[0]].enabled then 1 else 0) + EnabledIn(order[1..], popups)
  }

  /** The sum of the product counts of the records listed in `order`. */
  function ProductsIn(order: seq<string>, popups: map<string, Popup>): nat
    requires forall i :: 0 <= i < |order| ==> order[i] in popups
  {
    if order == [] then 0 else |popups[order[0]].products| + ProductsIn(order[1..], popups)
  }

  /** count(array_filter($popups, enabled)). */
  function EnabledCount(s: Store): (n: nat)
    requires WellFormed(s)
    ensures n <= Total(s)
  {
    EnabledIn(s.order, s.popups)
  }

  /** array_sum(array_map(count(products), $popups)). */
  function TotalProducts(s: Store): nat
    requires WellFormed(s)
  {
    ProductsIn(s.order, s.popups)
  }

  /** The callback of the `array_filter` that counts active popups. */
  predicate IsEnabled(p: Popup) {
    p.enabled
  }

  /** `array_filter` keeps the entries themselves. */
  function Entry(p: Popup): Popup {
    p
  }

  /** The records listed in `order`, in that order. */
  function Listed(order: seq<string>, popups: map<string, Popup>): (r: seq<Popup>)
    requires forall i :: 0 <= i < |order| ==> order[i] in popups
    ensures |r| == |order| && forall i :: 0 <= i < |r| ==> r[i] == popups[order[i]]
  {
    seq(|order|, i requires 0 <= i < |order| => popups[order[i]])
  }

  /** `array_map(function($p) { return count($p['products']); }, …)`. */
  function ProductCounts(ps: seq<Popup>): (r: seq<nat>)
    ensures |r| == |ps| && forall i :: 0 <= i < |r| ==> r[i] == |ps[i].products|
  {
    seq(|ps|, i requires 0 <= i < |ps| => |ps[i].products|)
  }

  /** `array_sum`, adding from the last element back. */
  function ArraySum(xs: seq<nat>): nat {
    if xs == [] then 0 else ArraySum(xs[..|xs| - 1]) + xs[|xs| - 1]
  }

  /** Appending one listed key adds its record's share to both sums. */
  lemma {:induction false} SumsSnoc(order: seq<string>, popups: map<string, Popup>, id: string)
    requires forall i :: 0 <= i < |order| ==> order[i] in popups
    requires id in popups
    ensures forall i :: 0 <= i < |order + [id]| ==> (order + [id])[i] in popups
    ensures EnabledIn(order + [id], popups) == EnabledIn(order, popups) + (if popups[id].enabled then 1 else 0)
    ensures ProductsIn(order + [id], popups) == ProductsIn(order, popups) + |popups[id].products|
  {
    if order == [] {
      assert [id][1..] == [];
    } else {
      SumsSnoc(order[1..], popups, id);
      assert (order + [id])[1..] == order[1..] + [id];
    }
  }

  /** The two recursive sums are `count(array_filter(…))` and `array_sum(array_map(…))` over the listed records. */
  lemma {:induction false} SumsOverListed(order: seq<string>, popups: map<string, Popup>)
    requires forall i :: 0 <= i < |order| ==> order[i] in popups
    ensures EnabledIn(order, popups) == |FilterMap(Listed(order, popups), IsEnabled, Entry)|
    ensures ProductsIn(order, popups) == ArraySum(ProductCounts(Listed(order, popups)))
    decreases |order|
  {
    if order != [] {
      var n := |order|;
      var front := order[..n - 1];
      var r := Listed(order, popups);
      SumsOverListed(front, popups);
      assert r[..n - 1] == Listed(front, popups);
      assert ProductCounts(r)[..n - 1] == ProductCounts(r[..n - 1]);
      SumsSnoc(front, popups, order[n - 1]);
      assert front + [order[n - 1]] == order;
    }
  }

  /** The active card: the number of records `array_filter` keeps for their `enabled` flag. */
  lemma EnabledCountIsFilter(s: Store)
    requires WellFormed(s)
    ensures EnabledCount(s) == |FilterMap(Values(s), IsEnabled, Entry)|
  {
    SumsOverListed(s.order, s.popups);
  }

  /** The products card: the sum of the product counts of the records, in array order. */
  lemma TotalProductsIsSum(s: Store)
    requires WellFormed(s)
    ensures TotalProducts(s) == ArraySum(ProductCounts(Values(s)))
  {
    SumsOverListed(s.order, s.popups);
  }

  /** Removing one listed key takes its record's contribution out of both sums. */
  lemma {:induction false} SumsWithout(order: seq<string>, popups: map<string, Popup>, id: string)
    requires Distinct(order)
    requires forall i :: 0 <= i < |order| ==> order[i] in popups
    requires id in order
    ensures forall i :: 0 <= i < |Without(order, id)| ==> Without(order, id)[i] in popups - {id}
    ensures ProductsIn(Without(order, id), popups - {id}) == ProductsIn(order, popups) - |popups[id].products|
    ensures EnabledIn(Without(order, id), popups - {id})
         == EnabledIn(order, popups) - (if popups[id].enabled then 1 else 0)
  {
    var rest := Without(order[1..], id);
    assert forall i :: 0 <= i < |Without(order, id)| ==> Without(order, id)[i] in popups - {id} by {
      forall i | 0 <= i < |Without(order, id)| ensures Without(order, id)[i] in popups - {id} {
        assert Without(order, id)[i] in Without(order, id);
      }
    }
    if order[0] == id {
      assert id !in order[1..];
      WithoutAbsent(order[1..], id);
      SumsOnUntouchedKeys(order[1..], popups, id);
    } else {
      assert id in order[1..];
      SumsWithout(order[1..], popups, id);
      assert Without(order, id) == [order[0]] + rest;
      assert ([order[0]] + rest)[1..] == rest;
    }
  }

  /** Taking out a key that is not listed changes neither sum. */
  lemma {:induction false} SumsOnUntouchedKeys(order: seq<string>, popups: map<string, Popup>, id: string)
    requires forall i :: 0 <= i < |order| ==> order[i] in popups && order[i] != id
    ensures ProductsIn(order, popups - {id}) == ProductsIn(order, popups)
    ensures EnabledIn(order, popups - {id}) == EnabledIn(order, popups)
  {
    if order != [] {
      SumsOnUntouchedKeys(order[1..], popups, id);
    }
  }

  /** Deleting a listed popup lowers the total by one and the other cards by its own share. */
  lemma DeleteStats(s: Store, id: string)
    requires WellFormed(s) && id in s.popups
    ensures WellFormed(Delete(s, id))
    ensures Total(Delete(s, id)) == Total(s) - 1
    ensures TotalProducts(Delete(s, id)) == TotalProducts(s) - |s.popups[id].products|
    ensures EnabledCount(Delete(s, id)) == EnabledCount(s) - (if s.popups[id].enabled then 1 else 0)
  {
    DeleteSpec(s, id);
    SumsWithout(s.order, s.popups, id);
    WithoutLength(s.order, id);
  }

  lemma {:induction false} WithoutLength(order: seq<string>, id: string)
    requires Distinct(order)
    requires id in order
    ensures |Without(order, id)| == |order| - 1
  {
    if order[0] == id {
      assert id !in order[1..];
      WithoutAbsent(order[1..], id);
    } else {
      WithoutLength(order[1..], id);
    }
  }

  /** Sums over a list with one more key at the end. */
  lemma {:induction false} SumsAppend(order: seq<string>, popups: map<string, Popup>, id: string, p: Popup)
    requires forall i :: 0 <= i < |order| ==> order[i] in popups && order[i] != id
    ensures forall i :: 0 <= i < |order + [id]| ==> (order + [id])[i] in popups[id := p]
    ensures ProductsIn(order + [id], popups[id := p]) == ProductsIn(order, popups) + |p.products|
    ensures EnabledIn(order + [id], popups[id := p]) == EnabledIn(order, popups) + (if p.enabled then 1 else 0)
  {
    if order == [] {
      assert [id][1..] == [];
    } else {
      SumsAppend(order[1..], popups, id, p);
      assert (order + [id])[1..] == order[1..] + [id];
    }
  }

  /** Duplicating under a fresh id adds one popup and the source's products. */
  lemma DuplicateStats(s: Store, id: string, time: int)
    requires WellFormed(s) && id in s.popups && NewId(time) !in s.popups
    ensures WellFormed(Duplicate(s, id, time))
    ensures Total(Duplicate(s, id, time)) == Total(s) + 1
    ensures TotalProducts(Duplicate(s, id, time)) == TotalProducts(s) + |s.popups[id].products|
    ensures EnabledCount(Duplicate(s, id, time)) == EnabledCount(s) + (if s.popups[id].enabled then 1 else 0)
  {
    DuplicateSpec(s, id, time);
    SumsAppend(s.order, s.popups, NewId(time), Copy(s.popups[id], NewId(time)));
  }

  /** Sums after one listed record is replaced. */
  lemma {:induction false} SumsReplace(order: seq<string>, popups: map<string, Popup>, id: string, p: Popup)
    requires Distinct(order)
    requires forall i :: 0 <= i < |order| ==> order[i] in popups
    requires id in order
    ensures ProductsIn(order, popups[id := p]) == ProductsIn(order, popups) - |popups[id].products| + |p.products|
    ensures EnabledIn(order, popups[id := p])
         == EnabledIn(order, popups) - (if popups[id].enabled then 1 else 0) + (if p.enabled then 1 else 0)
  {
    if order[0] == id {
      assert id !in order[1..];
      SumsOnOtherKeys(order[1..], popups, id, p);
    } else {
      SumsReplace(order[1..], popups, id, p);
    }
  }

  lemma {:induction false} SumsOnOtherKeys(order: seq<string>, popups: map<string, Popup>, id: string, p: Popup)
    requires forall i :: 0 <= i < |order| ==> order[i] in popups && order[i] != id
    ensures ProductsIn(order, popups[id := p]) == ProductsIn(order, popups)
    ensures EnabledIn(order, popups[id := p]) == EnabledIn(order, popups)
  {
    if order != [] {
      SumsOnOtherKeys(order[1..], popups, id, p);
    }
  }

  /** Toggling changes the active count by one and nothing else on the cards. */
  lemma ToggleStats(s: Store, id: string)
    requires WellFormed(s) && id in s.popups
    ensures WellFormed(Toggle(s, id))
    ensures Total(Toggle(s, id)) == Total(s)
    ensures TotalProducts(Toggle(s, id)) == TotalProducts(s)
    ensures EnabledCount(Toggle(s, id)) == if s.popups[id].enabled then EnabledCount(s) - 1 else EnabledCount(s) + 1
  {
    ToggleSpec(s, id);
    SumsReplace(s.order, s.popups, id, s.popups[id].(enabled := !s.popups[id].enabled));
  }

  // ---------------------------------------------------------------- rule summary

  /**
   * The "Page rules" cell: None is "All pages"; otherwise the number of
   * newline-separated lines of the trimmed text, blank lines included.
   */
  function RulesSummary(rules: string): (r: Option<nat>)
    ensures r.None? <==> RulesBlank(rules)
    ensures r.Some? ==> r.value == Count(PhpTrim(rules), '\n') + 1
  {
    var trimmed := PhpTrim(rules);
    if PhpFalsy(trimmed) then None else Some(|Split(trimmed, '\n')|)
  }

  // ---------------------------------------------------------------- the stored array as an object

  /** The `$popups` array the page loads, updates in place and writes back. */
  class PopupStore {
    var order: seq<string>
    var popups: map<string, Popup>

    function State(): Store
      reads this
    {
      Store(order, popups)
    }

    ghost predicate Valid()
      reads this
    {
      WellFormed(State())
    }

    constructor(s: Store)
      requires WellFormed(s)
      ensures State() == s && Valid()
    {
      order := s.order;
      popups := s.popups;
    }

    /** case 'delete'. */
    method DeletePopup(id: string)
      requires Valid()
      modifies this
      ensures Valid() && State() == Delete(old(State()), id)
    {
      DeleteSpec(State(), id);
      if id in popups {
        order := Without(order, id);
        popups := popups - {id};
      }
    }

    /** case 'duplicate', at Unix time `time`. */
    method DuplicatePopup(id: string, time: int)
      requires Valid()
      modifies this
      ensures Valid() && State() == Duplicate(old(State()), id, time)
    {
      DuplicateSpec(State(), id, time);
      if id in popups {
        var newId := NewId(time);
        var copy := popups[id];
        copy := copy.(id := newId);
        copy := copy.(name := copy.name + " (Copy)");
        copy := copy.(storageKey := newId + "_shown");
        if newId !in popups {
          order := order + [newId];
        }
        popups := popups[newId := copy];
      }
    }

    /** case 'toggle'. */
    method TogglePopup(id: string)
      requires Valid()
      modifies this
      ensures Valid() && State() == Toggle(old(State()), id)
    {
      ToggleSpec(State(), id);
      if id in popups {
        popups := popups[id := popups[id].(enabled := !popups[id].enabled)];
      }
    }

    /** The action switch. */
    method HandleAction(action: string, rawId: string, time: int)
      requires Valid()
      modifies this
      ensures Valid() && State() == Act(old(State()), action, rawId, time)
    {
      var id := SanitizeKey(rawId);
      if action == "delete" {
        DeletePopup(id);
      } else if action == "duplicate" {
        DuplicatePopup(id, time);
      } else if action == "toggle" {
        TogglePopup(id);
      }
    }
  }
}
