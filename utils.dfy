/** Result shaping and the permission check of `apihangar/utils.py`: the
    ordered dictionaries built from cursor rows and from JSON object pairs, and
    the search for the first permission a user lacks. */
module Utils {
  import opened Wrappers

  /** The Python values that reach the engine from the database, from JSON
      and from request decoding. Floats, decimals and dates are not modelled. */
  datatype PyValue =
    | Null
    | Bool(b: bool)
    | Number(n: int)
    | Text(s: string)
    | List(items: seq<PyValue>)
    | Tuple(items: seq<PyValue>)
    | Dict(entries: seq<(string, PyValue)>)

  // ---------------------------------------------------------------------------
  // Ordered dictionaries (`SortedDict` / `OrderedDict` built from key-value pairs)
  // ---------------------------------------------------------------------------

  function Keys<V>(d: seq<(string, V)>): (ks: seq<string>)
    ensures |ks| == |d|
    ensures forall i :: 0 <= i < |d| ==> ks[i] == d[i].0
  {
    seq(|d|, i requires 0 <= i < |d| => d[i].0)
  }

  predicate Distinct(ks: seq<string>)
  {
    forall i, j :: 0 <= i < j < |ks| ==> ks[i] != ks[j]
  }

  /** `d[k]` for an ordered dictionary; None when k is not a key. */
  function Lookup<V>(d: seq<(string, V)>, k: string): Option<V>
  {
    if d == [] then None else if d[0].0 == k then Some(d[0].1) else Lookup(d[1..], k)
  }

  /** A key is found exactly when it is one of the dict's keys. */
  lemma {:induction false} LookupFound<V>(d: seq<(string, V)>, k: string)
    ensures Lookup(d, k).Some? <==> k in Keys(d)
    decreases |d|
  {
    if d != [] {
      assert Keys(d) == [d[0].0] + Keys(d[1..]);
      LookupFound(d[1..], k);
    }
  }

  /** `d[k] = v`: an existing key keeps its position and takes the new value;
      a new key goes at the end. */
  function Insert<V>(d: seq<(string, V)>, k: string, v: V): seq<(string, V)>
  {
    if d == [] then [(k, v)]
    else if d[0].0 == k then [(k, v)] + d[1..]
    else [d[0]] + Insert(d[1..], k, v)
  }

  /** After `d[k] = v` the keys are those of d, with k appended when new. */
  lemma {:induction false} InsertKeys<V>(d: seq<(string, V)>, k: string, v: V)
    ensures Keys(Insert(d, k, v)) == if k in Keys(d) then Keys(d) else Keys(d) + [k]
    decreases |d|
  {
    if d == [] {
    } else if d[0].0 == k {
      assert Keys(Insert(d, k, v)) == Keys(d);
    } else {
      InsertKeys(d[1..], k, v);
      assert Keys(d) == [d[0].0] + Keys(d[1..]);
      assert Keys(Insert(d, k, v)) == [d[0].0] + Keys(Insert(d[1..], k, v));
    }
  }

  /** After `d[k] = v`, k maps to v and every other key keeps its value. */
  lemma {:induction false} InsertLookup<V>(d: seq<(string, V)>, k: string, v: V, k': string)
    ensures Lookup(Insert(d, k, v), k') == if k' == k then Some(v) else Lookup(d, k')
    decreases |d|
  {
    if d != [] && d[0].0 != k {
      InsertLookup(d[1..], k, v, k');
    }
  }

  lemma InsertSpec<V>(d: seq<(string, V)>, k: string, v: V)
    ensures Keys(Insert(d, k, v)) == if k in Keys(d) then Keys(d) else Keys(d) + [k]
    ensures forall k' :: Lookup(Insert(d, k, v), k') == if k' == k then Some(v) else Lookup(d, k')
  {
    InsertKeys(d, k, v);
    forall k' ensures Lookup(Insert(d, k, v), k') == if k' == k then Some(v) else Lookup(d, k') {
      InsertLookup(d, k, v, k');
    }
  }

  /** The keys of ks without repetitions, each at its first occurrence. */
  function Dedup(ks: seq<string>): (r: seq<string>)
    ensures Distinct(r)
    ensures forall k :: k in r <==> k in ks
  {
    if ks == [] then []
    else
      var d := Dedup(ks[..|ks| - 1]);
      assert forall k :: k in ks <==> k in ks[..|ks| - 1] || k == ks[|ks| - 1];
      if ks[|ks| - 1] in d then d else d + [ks[|ks| - 1]]
  }

  /** The value of the last pair for key k, which is what a dict built from
      the pairs holds for k. */
  function LastValue<V>(ps: seq<(string, V)>, k: string): Option<V>
  {
    if ps == [] then None
    else if ps[|ps| - 1].0 == k then Some(ps[|ps| - 1].1)
    else LastValue(ps[..|ps| - 1], k)
  }

  /** `OrderedDict(pairs)`: inserts the pairs in order. */
  function FromPairs<V>(ps: seq<(string, V)>): (d: seq<(string, V)>)
    ensures Keys(d) == Dedup(Keys(ps))
    ensures forall k :: Lookup(d, k) == LastValue(ps, k)
  {
    if ps == [] then []
    else
      var init := ps[..|ps| - 1];
      assert Keys(ps)[..|ps| - 1] == Keys(init);
      InsertSpec(FromPairs(init), ps[|ps| - 1].0, ps[|ps| - 1].1);
      Insert(FromPairs(init), ps[|ps| - 1].0, ps[|ps| - 1].1)
  }

  /** The value of the last pair with a given key is the one the dict keeps. */
  lemma {:induction false} LastValueAt<V>(ps: seq<(string, V)>, j: nat)
    requires j < |ps|
    requires forall j' :: j < j' < |ps| ==> ps[j'].0 != ps[j].0
    ensures LastValue(ps, ps[j].0) == Some(ps[j].1)
    decreases |ps|
  {
    if j < |ps| - 1 {
      LastValueAt(ps[..|ps| - 1], j);
    }
  }

  /** Pairs whose keys are all different make a dict holding exactly those pairs, in order. */
  lemma {:induction false} FromDistinctPairs<V>(ps: seq<(string, V)>)
    requires Distinct(Keys(ps))
    ensures FromPairs(ps) == ps
    decreases |ps|
  {
    if ps != [] {
      var n := |ps| - 1;
      var init, last := ps[..n], ps[n];
      DistinctInit(ps);
      FromDistinctPairs(init);
      InsertNewKey(init, last.0, last.1);
      calc {
        FromPairs(ps);
        Insert(FromPairs(init), last.0, last.1);
        Insert(init, last.0, last.1);
        init + [(last.0, last.1)];
        { assert init + [last] == ps; }
        ps;
      }
    }
  }

  /** Dropping the last pair keeps the keys distinct, and the last key is new to the rest. */
  lemma DistinctInit<V>(ps: seq<(string, V)>)
    requires ps != [] && Distinct(Keys(ps))
    ensures Distinct(Keys(ps[..|ps| - 1]))
    ensures ps[|ps| - 1].0 !in Keys(ps[..|ps| - 1])
  {
    var n := |ps| - 1;
    var init := ps[..n];
    forall i, j | 0 <= i < j < |init| ensures Keys(init)[i] != Keys(init)[j] {
      assert Keys(ps)[i] != Keys(ps)[j];
    }
    forall i | 0 <= i < |init| ensures Keys(init)[i] != ps[n].0 {
      assert Keys(ps)[i] != Keys(ps)[n];
    }
  }

  lemma {:induction false} InsertNewKey<V>(d: seq<(string, V)>, k: string, v: V)
    requires k !in Keys(d)
    ensures Insert(d, k, v) == d + [(k, v)]
    decreases |d|
  {
    if d != [] {
      assert Keys(d)[0] == d[0].0;
      assert Keys(d)[1..] == Keys(d[1..]);
      InsertNewKey(d[1..], k, v);
      calc {
        Insert(d, k, v);
        [d[0]] + Insert(d[1..], k, v);
        [d[0]] + (d[1..] + [(k, v)]);
        { assert [d[0]] + d[1..] == d; }
        d + [(k, v)];
      }
    }
  }

  /** Every value a dict built from pairs holds is the value of one of the pairs. */
  lemma {:induction false} FromPairsValues<V>(ps: seq<(string, V)>, P: V -> bool)
    requires forall i :: 0 <= i < |ps| ==> P(ps[i].1)
    ensures forall i :: 0 <= i < |FromPairs(ps)| ==> P(FromPairs(ps)[i].1)
    decreases |ps|
  {
    if ps != [] {
      var init := ps[..|ps| - 1];
      FromPairsValues(init, P);
      InsertValues(FromPairs(init), ps[|ps| - 1].0, ps[|ps| - 1].1, P);
    }
  }

  lemma {:induction false} InsertValues<V>(d: seq<(string, V)>, k: string, v: V, P: V -> bool)
    requires P(v) && forall i :: 0 <= i < |d| ==> P(d[i].1)
    ensures forall i :: 0 <= i < |Insert(d, k, v)| ==> P(Insert(d, k, v)[i].1)
    decreases |d|
  {
    if d != [] && d[0].0 != k {
      InsertValues(d[1..], k, v, P);
    }
  }

  // ---------------------------------------------------------------------------
  // dictfetchall
  // ---------------------------------------------------------------------------

  /** One entry of `cursor.description`; only its first component, the
      column name, is used. */
  datatype ColumnDescription = ColumnDescription(name: string)

  /** A result row: column name -> value, in column order. */
  type Row = seq<(string, PyValue)>

  function ColumnNames(desc: seq<ColumnDescription>): (names: seq<string>)
    ensures |names| == |desc|
    ensures forall j :: 0 <= j < |desc| ==> names[j] == desc[j].name
  {
    if desc == [] then [] else [desc[0].name] + ColumnNames(desc[1..])
  }

  /** Python's `zip`: pairs positionally, as long as the shorter input. */
  function Zip<A, B>(a: seq<A>, b: seq<B>): (r: seq<(A, B)>)
    ensures |r| == if |a| < |b| then |a| else |b|
    ensures forall i :: 0 <= i < |r| ==> r[i] == (a[i], b[i])
  {
    if a == [] || b == [] then [] else [(a[0], b[0])] + Zip(a[1..], b[1..])
  }

  /** `dictfetchall`: one ordered mapping per fetched row, in fetch order. */
  function DictFetchAll(desc: seq<ColumnDescription>, rows: seq<seq<PyValue>>): (r: seq<Row>)
    ensures |r| == |rows|
  {
    seq(|rows|, i requires 0 <= i < |rows| => FromPairs(Zip(ColumnNames(desc), rows[i])))
  }

  /** Row i maps the column names, in column order and without repeats, to
      the row's values; a column name appearing twice keeps the later value;
      only the first min(columns, values) positions take part. */
  lemma DictFetchAllRow(desc: seq<ColumnDescription>, rows: seq<seq<PyValue>>, i: nat, j: nat)
    requires i < |rows| && j < |desc| && j < |rows[i]|
    requires forall j' :: j < j' < |desc| && j' < |rows[i]| ==> desc[j'].name != desc[j].name
    ensures Keys(DictFetchAll(desc, rows)[i]) == Dedup(Keys(Zip(ColumnNames(desc), rows[i])))
    ensures Lookup(DictFetchAll(desc, rows)[i], desc[j].name) == Some(rows[i][j])
  {
    var ps := Zip(ColumnNames(desc), rows[i]);
    LastValueAt(ps, j);
  }

  /** With distinct column names, row i is exactly the zipped (name, value) pairs. */
  lemma DictFetchAllDistinct(desc: seq<ColumnDescription>, rows: seq<seq<PyValue>>, i: nat)
    requires i < |rows| && Distinct(ColumnNames(desc))
    ensures DictFetchAll(desc, rows)[i] == Zip(ColumnNames(desc), rows[i])
  {
    var ps := Zip(ColumnNames(desc), rows[i]);
    FromDistinctPairs(ps);
  }

  // ---------------------------------------------------------------------------
  // sorteddict_with_tuples
  // ---------------------------------------------------------------------------

  /** A list becomes a tuple with the same elements; anything else is kept. */
  function Tupled(v: PyValue): (r: PyValue)
    ensures !r.List?
    ensures v.List? ==> r == Tuple(v.items)
    ensures !v.List? ==> r == v
  {
    if v.List? then Tuple(v.items) else v
  }

  /** `sorteddict_with_tuples(pairs)`, the JSON object hook: an ordered dict
      whose list values are turned into tuples. */
  function SortedDictWithTuples(pairs: seq<(string, PyValue)>): (d: seq<(string, PyValue)>)
    ensures Keys(d) == Dedup(Keys(pairs))
    ensures forall k :: Lookup(d, k) == match LastValue(pairs, k)
                                       case None => None
                                       case Some(v) => Some(Tupled(v))
    ensures forall i :: 0 <= i < |d| ==> !d[i].1.List?
  {
    var tupled := seq(|pairs|, i requires 0 <= i < |pairs| => (pairs[i].0, Tupled(pairs[i].1)));
    assert Keys(tupled) == Keys(pairs);
    forall k ensures LastValue(tupled, k) == match LastValue(pairs, k)
                                           case None => None
                                           case Some(v) => Some(Tupled(v)) {
      TupledLastValue(pairs, k);
    }
    FromPairsValues(tupled, (v: PyValue) => !v.List?);
    FromPairs(tupled)
  }

  lemma {:induction false} TupledLastValue(pairs: seq<(string, PyValue)>, k: string)
    ensures LastValue(seq(|pairs|, i requires 0 <= i < |pairs| => (pairs[i].0, Tupled(pairs[i].1))), k)
         == match LastValue(pairs, k)
            case None => None
            case Some(v) => Some(Tupled(v))
    decreases |pairs|
  {
    if pairs != [] {
      var init := pairs[..|pairs| - 1];
      TupledLastValue(init, k);
      var t := seq(|pairs|, i requires 0 <= i < |pairs| => (pairs[i].0, Tupled(pairs[i].1)));
      var ti := seq(|init|, i requires 0 <= i < |init| => (init[i].0, Tupled(init[i].1)));
      assert t[..|t| - 1] == ti;
    }
  }

  // ---------------------------------------------------------------------------
  // check_permission
  // ---------------------------------------------------------------------------

  /** A required permission: the auth group whose members may use the object. */
  datatype Permission = Permission(groupName: string)

  /** `check_permission`, as evidently intended: scans the required
      permissions in order and returns the group name of the first one whose
      group is not among the user's group names; None lets the user in. */
  method CheckPermission(groups: seq<string>, required: seq<Permission>) returns (denied: Option<string>)
    ensures denied.None? <==> forall i :: 0 <= i < |required| ==> required[i].groupName in groups
    ensures denied.Some? ==> exists i :: 0 <= i < |required| && denied.value == required[i].groupName
                                         && required[i].groupName !in groups
                                         && forall j :: 0 <= j < i ==> required[j].groupName in groups
  {
    for i := 0 to |required|
      invariant forall j :: 0 <= j < i ==> required[j].groupName in groups
    {
      if required[i].groupName !in groups {
        return Some(required[i].groupName);
      }
    }
    return None;
  }

  /** `permission not in groups` as written: the permission object itself is
      looked up among group-name strings, and a model instance never equals a
      string, so the test never finds it. */
  predicate PermissionObjectIn(p: Permission, groups: seq<string>)
  {
    false
  }

  /** The scan of `check_permission` with its membership test `found` as a
      parameter: the group name of the first permission the test does not find. */
  function FirstNotFound(required: seq<Permission>, found: Permission -> bool): Option<string>
  {
    if required == [] then None
    else if !found(required[0]) then Some(required[0].groupName)
    else FirstNotFound(required[1..], found)
  }

  /** `check_permission` as written. */
  function CheckPermissionAsWritten(groups: seq<string>, required: seq<Permission>): Option<string>
  {
    FirstNotFound(required, (p: Permission) => PermissionObjectIn(p, groups))
  }

  /** As written, any user is turned away from any object that requires a
      permission, even one whose group the user belongs to. */
  lemma CheckPermissionAsWrittenDeniesMembers(groups: seq<string>, required: seq<Permission>)
    requires required != []
    ensures CheckPermissionAsWritten(groups, required) == Some(required[0].groupName)
  {
  }

  /** The concrete case: a member of "staff" is refused an endpoint that
      requires "staff", which CheckPermission lets through. */
  lemma CheckPermissionAsWrittenExample()
    ensures CheckPermissionAsWritten(["staff"], [Permission("staff")]) == Some("staff")
    ensures forall i :: 0 <= i < 1 ==> [Permission("staff")][i].groupName in ["staff"]
  {
  }
}
