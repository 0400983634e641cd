/** The two tables of the mock server are JavaScript arrays of records,
    searched by `find` and `findIndex` with the test `r.id === id`. */
module Tables {
  import opened Json

  /** `r.id === id`: strict equality with the number parsed from the URL.
      NaN (None) equals nothing, an absent `id` is `undefined`, and a
      string id such as "1" is not the number 1. */
  predicate HasId(r: Record, id: Option<int>)
    ensures id.None? ==> !HasId(r, id)
    ensures HasId(r, id) ==> "id" in r && r["id"].Num? && id == Some(r["id"].n)
    ensures "id" in r && !r["id"].Num? ==> !HasId(r, id)
  {
    id.Some? && "id" in r && r["id"] == Num(id.value)
  }

  /** `t.findIndex(r => r.id === id)`: the index of the first matching
      record, or -1 when none matches. */
  function FindIndex(t: seq<Record>, id: Option<int>): (i: int)
    ensures -1 <= i < |t|
    ensures 0 <= i ==> HasId(t[i], id)
    ensures forall j :: 0 <= j < i ==> !HasId(t[j], id)
    ensures i == -1 <==> forall j :: 0 <= j < |t| ==> !HasId(t[j], id)
    ensures id.None? ==> i == -1
  {
    if t == [] then -1
    else if HasId(t[0], id) then 0
    else
      var k := FindIndex(t[1..], id);
      if k == -1 then -1 else k + 1
  }

  /** `t.find(r => r.id === id)`: the first matching record, or
      `undefined` (None) when none matches. */
  function Find(t: seq<Record>, id: Option<int>): (r: Option<Record>)
    ensures r.None? <==> forall j :: 0 <= j < |t| ==> !HasId(t[j], id)
    ensures r.Some? ==> exists i :: 0 <= i < |t| && t[i] == r.value && HasId(t[i], id)
                                    && forall j :: 0 <= j < i ==> !HasId(t[j], id)
  {
    var i := FindIndex(t, id);
    if i == -1 then None else Some(t[i])
  }

  /** `t.splice(i, 1)`: the table without its i-th record. */
  function RemoveAt(t: seq<Record>, i: nat): (u: seq<Record>)
    requires i < |t|
    ensures |u| == |t| - 1
    ensures forall j :: 0 <= j < i ==> u[j] == t[j]
    ensures forall j :: i <= j < |u| ==> u[j] == t[j + 1]
  {
    t[..i] + t[i + 1..]
  }

  /** At most one record of `t` carries `id`. */
  predicate UniqueId(t: seq<Record>, id: Option<int>) {
    forall j, k :: 0 <= j < |t| && 0 <= k < |t| && HasId(t[j], id) && HasId(t[k], id) ==> j == k
  }

  /** After a push, the first match is the old first match if there was
      one, otherwise the new record if it matches. */
  lemma FindIndexAfterPush(t: seq<Record>, r: Record, id: Option<int>)
    ensures FindIndex(t + [r], id) ==
      if FindIndex(t, id) != -1 then FindIndex(t, id)
      else if HasId(r, id) then |t| else -1
  {
    var u := t + [r];
    assert forall j :: 0 <= j < |t| ==> u[j] == t[j];
    assert u[|t|] == r;
  }

  /** After replacing the first match by a record that still matches,
      the first match is at the same index. */
  lemma FindIndexAfterReplace(t: seq<Record>, r: Record, id: Option<int>)
    requires FindIndex(t, id) != -1
    requires HasId(r, id)
    ensures FindIndex(t[FindIndex(t, id) := r], id) == FindIndex(t, id)
  {
    var i := FindIndex(t, id);
    var u := t[i := r];
    assert HasId(u[i], id);
    assert forall j :: 0 <= j < i ==> u[j] == t[j];
  }

  /** Removing the only record that carries `id` leaves none that does:
      a second lookup of the same id finds nothing. */
  lemma FindIndexAfterRemove(t: seq<Record>, id: Option<int>)
    requires FindIndex(t, id) != -1
    requires UniqueId(t, id)
    ensures FindIndex(RemoveAt(t, FindIndex(t, id)), id) == -1
  {
  }

  /** Removing the first match keeps every other record, in order: a
      record carrying another id is found exactly as before, shifted
      down by one when it came after the removed one. */
  lemma FindIndexAfterRemoveOther(t: seq<Record>, id: Option<int>, other: Option<int>)
    requires FindIndex(t, id) != -1
    requires FindIndex(t, other) != FindIndex(t, id)
    ensures var i, k := FindIndex(t, id), FindIndex(t, other);
            FindIndex(RemoveAt(t, i), other) == if k == -1 || k < i then k else k - 1
  {
    var i, k := FindIndex(t, id), FindIndex(t, other);
    var u := RemoveAt(t, i);
    if k == -1 {
      forall j | 0 <= j < |u| ensures !HasId(u[j], other) {
        if j >= i { assert u[j] == t[j + 1]; }
      }
    } else if k < i {
      assert u[k] == t[k];
    } else {
      assert u[k - 1] == t[k];
    }
  }
}
