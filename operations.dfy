/**
 * The operation identity and per-operation coverage facts the post-builders read.
 * OperationKey, OperationResult and CoverageState are not part of this model's
 * source files; they are given the fields the builders use and nothing more.
 */
module Operations {

  /** The HTTP methods of an OpenAPI path item, as the Java enum PathItem.HttpMethod. */
  datatype HttpMethod = POST | GET | PUT | PATCH | DELETE | HEAD | OPTIONS | TRACE {
    /** Enum.name(): the constant's identifier, in upper case. */
    function Name(): (n: string)
      ensures n != []
      ensures forall k :: 0 <= k < |n| ==> 'A' <= n[k] <= 'Z'
    {
      match this
      case POST => "POST"
      case GET => "GET"
      case PUT => "PUT"
      case PATCH => "PATCH"
      case DELETE => "DELETE"
      case HEAD => "HEAD"
      case OPTIONS => "OPTIONS"
      case TRACE => "TRACE"
    }
  }

  /** An operation: one HTTP method on one path template. */
  datatype OperationKey = OperationKey(path: string, httpMethod: HttpMethod)

  /** Coverage classification of an operation or a tag. */
  datatype CoverageState = FULL | PARTY | EMPTY

  /** What the pre-builders recorded for one operation; its state is computed upstream. */
  datatype OperationResult = OperationResult(
    processCount: nat,
    allConditionCount: nat,
    coveredConditionCount: nat,
    deprecated: bool,
    state: CoverageState)

  /** One entry of the operation map, in the order the post-builder base class visits it. */
  datatype Entry = Entry(key: OperationKey, result: OperationResult)

  /** Entries drawn from a map: no key occurs twice. */
  ghost predicate DistinctKeys(ops: seq<Entry>) {
    forall i, j :: 0 <= i < j < |ops| ==> ops[i].key != ops[j].key
  }

  /** The keys of the entries that satisfy keep. */
  ghost function KeysWhere(ops: seq<Entry>, keep: Entry -> bool): set<OperationKey> {
    set i | 0 <= i < |ops| && keep(ops[i]) :: ops[i].key
  }

  lemma KeysWhereSnoc(ops: seq<Entry>, keep: Entry -> bool)
    requires ops != []
    ensures KeysWhere(ops, keep) ==
      KeysWhere(ops[..|ops| - 1], keep) + (if keep(ops[|ops| - 1]) then {ops[|ops| - 1].key} else {})
  {
    var n := |ops| - 1;
    var prev := KeysWhere(ops[..n], keep);
    forall k | k in KeysWhere(ops, keep)
      ensures k in prev || (keep(ops[n]) && k == ops[n].key)
    {
      var i :| 0 <= i < |ops| && keep(ops[i]) && ops[i].key == k;
      if i < n { assert ops[..n][i] == ops[i]; }
    }
    forall k | k in prev
      ensures k in KeysWhere(ops, keep)
    {
      var i :| 0 <= i < n && keep(ops[..n][i]) && ops[..n][i].key == k;
      assert ops[i] == ops[..n][i];
    }
  }

  /** A key that no entry carries is in no selection of the entries. */
  lemma KeysWhereOnlyCarried(ops: seq<Entry>, keep: Entry -> bool, k: OperationKey)
    requires forall i :: 0 <= i < |ops| ==> ops[i].key != k
    ensures k !in KeysWhere(ops, keep)
  {
  }

  /** The number of entries that satisfy keep. */
  function CountWhere(ops: seq<Entry>, keep: Entry -> bool): nat
    decreases |ops|
  {
    if ops == [] then 0
    else CountWhere(ops[..|ops| - 1], keep) + (if keep(ops[|ops| - 1]) then 1 else 0)
  }

  /** Over distinct keys, selecting keys loses nothing: one key per selected entry. */
  lemma {:induction false} KeysWhereCount(ops: seq<Entry>, keep: Entry -> bool)
    requires DistinctKeys(ops)
    ensures |KeysWhere(ops, keep)| == CountWhere(ops, keep)
    decreases |ops|
  {
    if ops != [] {
      var n := |ops| - 1;
      var prefix := ops[..n];
      DistinctPrefix(ops);
      KeysWhereCount(prefix, keep);
      KeysWhereSnoc(ops, keep);
      KeysWhereOnlyCarried(prefix, keep, ops[n].key);
    }
  }

  /** Distinct keys stay distinct in the prefix, and the last key is not among the prefix's keys. */
  lemma DistinctPrefix(ops: seq<Entry>)
    requires ops != [] && DistinctKeys(ops)
    ensures DistinctKeys(ops[..|ops| - 1])
    ensures forall i :: 0 <= i < |ops| - 1 ==> ops[i].key != ops[|ops| - 1].key
  {
    var prefix := ops[..|ops| - 1];
    forall i | 0 <= i < |prefix| ensures prefix[i] == ops[i] {
    }
  }
}
