/** What a helper process of the detail collector may print, and what the collector makes of it. */
module HelperReport {

  datatype Request = Request(pid: nat, startTicks: nat)

  /** A value as `json.loads` returns it.  An object's members are in order and their names differ. */
  datatype Json =
    | Null
    | Bool(truth: bool)
    | Number(value: real)
    | NotFinite
    | String(text: string)
    | Array(items: seq<Json>)
    | Object(members: seq<(string, Json)>)

  datatype Pair = Pair(key: Json, value: Json) | NoPair

  /** An item that unpacks into a key and a value: two items, two characters, or the names of two members. */
  function PairOf(item: Json): Pair {
    match item
    case Array(items) => if |items| == 2 && !items[0].Array? && !items[0].Object? then Pair(items[0], items[1]) else NoPair
    case String(text) => if |text| == 2 then Pair(String([text[0]]), String([text[1]])) else NoPair
    case Object(members) => if |members| == 2 then Pair(String(members[0].0), String(members[1].0)) else NoPair
    case _ => NoPair
  }

  /** What `dict.update` takes without raising: an object, a list of pairs, or an empty string. */
  predicate Updates(j: Json) {
    match j
    case Object(_) => true
    case Array(items) => forall item :: item in items ==> PairOf(item).Pair?
    case String(text) => text == ""
    case _ => false
  }

  type Fields = map<string, Json>

  function PutMembers(d: Fields, members: seq<(string, Json)>): Fields
    decreases |members|
  {
    if members == [] then d else PutMembers(d[members[0].0 := members[0].1], members[1..])
  }

  function PutPairs(d: Fields, items: seq<Json>): Fields
    requires forall item :: item in items ==> PairOf(item).Pair?
    decreases |items|
  {
    if items == [] then d
    else
      var pair := PairOf(items[0]);
      PutPairs(if pair.key.String? then d[pair.key.text := pair.value] else d, items[1..])
  }

  function Updated(d: Fields, j: Json): Fields
    requires Updates(j)
  {
    match j
    case Object(members) => PutMembers(d, members)
    case Array(items) => PutPairs(d, items)
    case String(_) => d
  }

  /** The comparison with a request's number: a truth value counts as 0 or 1. */
  predicate IsNumber(j: Json, n: nat) {
    match j
    case Number(value) => value == n as real
    case Bool(truth) => n == if truth then 1 else 0
    case _ => false
  }

  predicate Has(d: Fields, name: string, n: nat) { name in d && IsNumber(d[name], n) }

  const AFTER := "observed_start_time_ticks_after"

  datatype Verdict = Success | Mismatch | Failure(abandoned: bool)

  /** The fields a result starts with. */
  function Asked(r: Request): Fields {
    map["pid" := Number(r.pid as real), "expected_start_time_ticks" := Number(r.startTicks as real)]
  }

  function Judge(r: Request, d: Fields): Verdict {
    var status := if "status" in d then d["status"] else Null;
    if !Has(d, "pid", r.pid) || !Has(d, "expected_start_time_ticks", r.startTicks)
       || !Has(d, "observed_start_time_ticks_after", r.startTicks) then Mismatch
    else if status == String("ok") then Success
    else if status == String("identity_mismatch") then Mismatch
    else Failure(status == String("abandoned"))
  }

  /** What the helper left behind when it exited. */
  datatype Output =
    | Unreadable           // not text in the locale's encoding, or JSON beyond the decoder's limits
    | ExitCode             // not zero
    | NotJson
    | Printed(json: Json)

  /** Output that raises an exception nobody catches. */
  predicate Raises(output: Output) { output.Unreadable? || (output.Printed? && !Updates(output.json)) }

  /** What `_collect` makes of the output for request `r`. */
  datatype Reading = Raised | BadExit | BadJson | Judged(verdict: Verdict)

  function ReadingOf(r: Request, output: Output): Reading {
    match output
    case Unreadable => Raised
    case ExitCode => BadExit
    case NotJson => BadJson
    case Printed(json) => if Updates(json) then Judged(Judge(r, Updated(Asked(r), json))) else Raised
  }

  lemma RaisedIff(r: Request, output: Output)
    ensures ReadingOf(r, output).Raised? <==> Raises(output)
  {
  }

  /** A report as a list of pairs. */
  function PairsReport(r: Request): Json {
    Array([Array([String(AFTER), Number(r.startTicks as real)]), Array([String("status"), String("ok")])])
  }

  lemma PairsReportIsSuccess(r: Request)
    ensures Updates(PairsReport(r)) && Judge(r, Updated(Asked(r), PairsReport(r))) == Success
  {
    assert |AFTER| == 31 && |"status"| == 6 && |"pid"| == 3 && |"expected_start_time_ticks"| == 25;
    var items := PairsReport(r).items;
    assert items[1..] == [items[1]] && items[1..][1..] == [];
    var one := Asked(r)[AFTER := Number(r.startTicks as real)];
    assert PutPairs(one, items[1..]) == one["status" := String("ok")];
    assert PutPairs(Asked(r), items) == PutPairs(one, items[1..]);
  }

  lemma EmptyListIsMismatch(r: Request)
    ensures Updates(Array([])) && Judge(r, Updated(Asked(r), Array([]))) == Mismatch
  {
    assert |AFTER| == 31 && |"pid"| == 3 && |"expected_start_time_ticks"| == 25;
  }

  /** A report that calls itself abandoned. */
  function AbandonedReport(r: Request): Json {
    Object([(AFTER, Number(r.startTicks as real)), ("status", String("abandoned"))])
  }

  lemma AbandonedReportIsFailure(r: Request)
    ensures Updates(AbandonedReport(r)) && Judge(r, Updated(Asked(r), AbandonedReport(r))) == Failure(true)
  {
    assert |AFTER| == 31 && |"status"| == 6 && |"pid"| == 3 && |"expected_start_time_ticks"| == 25;
    assert |"ok"| == 2 && |"identity_mismatch"| == 17 && |"abandoned"| == 9;
    var members := AbandonedReport(r).members;
    assert members[1..] == [members[1]] && members[1..][1..] == [];
    var one := Asked(r)[AFTER := Number(r.startTicks as real)];
    assert PutMembers(one, members[1..]) == one["status" := String("abandoned")];
    assert PutMembers(Asked(r), members) == PutMembers(one, members[1..]);
  }

  // ----- the verdict, over what was printed -----

  /** The named values an output brings, in order: an object's members, or the pairs with a text for a key. */
  function MembersOf(j: Json): seq<(string, Json)>
    requires Updates(j)
  {
    match j
    case Object(members) => members
    case Array(items) => PairMembers(items)
    case String(_) => []
  }

  function PairMembers(items: seq<Json>): seq<(string, Json)>
    requires forall item :: item in items ==> PairOf(item).Pair?
    decreases |items|
  {
    if items == [] then []
    else
      var pair := PairOf(items[0]);
      (if pair.key.String? then [(pair.key.text, pair.value)] else []) + PairMembers(items[1..])
  }

  predicate Names(members: seq<(string, Json)>, name: string) {
    exists i :: 0 <= i < |members| && members[i].0 == name
  }

  /** The last value brought under this name. */
  predicate Brings(members: seq<(string, Json)>, name: string, j: Json) {
    exists i :: 0 <= i < |members| && members[i] == (name, j) && forall k :: i < k < |members| ==> members[k].0 != name
  }

  /** The last value under this name is the number, or the truth value that equals it. */
  predicate BringsNumber(members: seq<(string, Json)>, name: string, n: nat) {
    || Brings(members, name, Number(n as real))
    || (n == 0 && Brings(members, name, Bool(false)))
    || (n == 1 && Brings(members, name, Bool(true)))
  }

  /** A report on another process: without the request's start ticks as observed, or with other numbers than it asked. */
  predicate IsOfAnother(members: seq<(string, Json)>, r: Request) {
    || !BringsNumber(members, AFTER, r.startTicks)
    || (Names(members, "pid") && !BringsNumber(members, "pid", r.pid))
    || (Names(members, "expected_start_time_ticks") && !BringsNumber(members, "expected_start_time_ticks", r.startTicks))
  }

  predicate HasStatus(members: seq<(string, Json)>, status: string) { Brings(members, "status", String(status)) }

  lemma {:induction false} LastWins(d: Fields, members: seq<(string, Json)>, name: string)
    ensures name in PutMembers(d, members) <==> Names(members, name) || name in d
    ensures Names(members, name) ==> Brings(members, name, PutMembers(d, members)[name])
    ensures !Names(members, name) && name in d ==> PutMembers(d, members)[name] == d[name]
    decreases |members|
  {
    if members != [] {
      var first, rest := members[0], members[1..];
      var d' := d[first.0 := first.1];
      LastWins(d', rest, name);
      if Names(rest, name) {
        var i :| 0 <= i < |rest| && rest[i] == (name, PutMembers(d', rest)[name])
                 && forall k :: i < k < |rest| ==> rest[k].0 != name;
        assert members[i + 1] == rest[i];
        assert forall k :: i + 1 < k < |members| ==> members[k] == rest[k - 1];
      } else {
        assert forall k :: 0 < k < |members| ==> members[k] == rest[k - 1] && rest[k - 1].0 != name;
        if first.0 == name { assert members[0] == (name, first.1); }
      }
    }
  }

  /** No two values are the last under one name. */
  lemma BringsOne(members: seq<(string, Json)>, name: string, j: Json, k: Json)
    requires Brings(members, name, j) && Brings(members, name, k)
    ensures j == k && Names(members, name)
  {
    var a :| 0 <= a < |members| && members[a] == (name, j) && forall i :: a < i < |members| ==> members[i].0 != name;
    var b :| 0 <= b < |members| && members[b] == (name, k) && forall i :: b < i < |members| ==> members[i].0 != name;
  }

  lemma BringsNamed(members: seq<(string, Json)>, name: string, j: Json)
    requires Brings(members, name, j)
    ensures Names(members, name)
  {
  }

  lemma {:induction false} PairsAreMembers(d: Fields, items: seq<Json>)
    requires forall item :: item in items ==> PairOf(item).Pair?
    ensures PutPairs(d, items) == PutMembers(d, PairMembers(items))
    decreases |items|
  {
    if items != [] {
      var pair := PairOf(items[0]);
      var rest := PairMembers(items[1..]);
      if pair.key.String? {
        assert PairMembers(items) == [(pair.key.text, pair.value)] + rest;
        assert PairMembers(items)[1..] == rest;
        PairsAreMembers(d[pair.key.text := pair.value], items[1..]);
      } else {
        assert PairMembers(items) == rest;
        PairsAreMembers(d, items[1..]);
      }
    }
  }

  lemma UpdatedIsMembers(d: Fields, j: Json)
    requires Updates(j)
    ensures Updated(d, j) == PutMembers(d, MembersOf(j))
  {
    if j.Array? { PairsAreMembers(d, j.items); }
  }

  /** A number field is right exactly when the output says so, or says nothing and it was right to begin with. */
  lemma HasIff(d: Fields, members: seq<(string, Json)>, name: string, n: nat)
    ensures Has(PutMembers(d, members), name, n) <==>
            if Names(members, name) then BringsNumber(members, name, n) else Has(d, name, n)
  {
    LastWins(d, members, name);
    if Names(members, name) {
      var j := PutMembers(d, members)[name];
      if Brings(members, name, Number(n as real)) { BringsOne(members, name, j, Number(n as real)); }
      if Brings(members, name, Bool(false)) { BringsOne(members, name, j, Bool(false)); }
      if Brings(members, name, Bool(true)) { BringsOne(members, name, j, Bool(true)); }
    }
  }

  lemma BringsNumberNamed(members: seq<(string, Json)>, name: string, n: nat)
    requires BringsNumber(members, name, n)
    ensures Names(members, name)
  {
  }

  lemma StatusIff(d: Fields, members: seq<(string, Json)>, text: string)
    requires "status" !in d
    ensures HasStatus(members, text) <==>
            "status" in PutMembers(d, members) && PutMembers(d, members)["status"] == String(text)
  {
    LastWins(d, members, "status");
    if HasStatus(members, text) {
      BringsNamed(members, "status", String(text));
      BringsOne(members, "status", PutMembers(d, members)["status"], String(text));
    }
  }

  lemma IdentityIff(r: Request, members: seq<(string, Json)>)
    ensures var d := PutMembers(Asked(r), members);
            IsOfAnother(members, r) <==>
            !Has(d, "pid", r.pid) || !Has(d, "expected_start_time_ticks", r.startTicks) || !Has(d, AFTER, r.startTicks)
  {
    assert |AFTER| == 31 && |"pid"| == 3 && |"expected_start_time_ticks"| == 25;
    HasIff(Asked(r), members, "pid", r.pid);
    HasIff(Asked(r), members, "expected_start_time_ticks", r.startTicks);
    HasIff(Asked(r), members, AFTER, r.startTicks);
    if BringsNumber(members, AFTER, r.startTicks) { BringsNumberNamed(members, AFTER, r.startTicks); }
  }

  /** The verdict on output that can be read: a success exactly for a report on the process asked for that says so, a
      mismatch exactly for a report on another one or one that says so itself, and otherwise a failure.
  */
  lemma JudgedBy(r: Request, j: Json)
    requires Updates(j)
    ensures var members, verdict := MembersOf(j), Judge(r, Updated(Asked(r), j));
            && (verdict == Success <==> !IsOfAnother(members, r) && HasStatus(members, "ok"))
            && (verdict == Mismatch <==> IsOfAnother(members, r) || HasStatus(members, "identity_mismatch"))
            && (verdict == Failure(true) <==> !IsOfAnother(members, r) && HasStatus(members, "abandoned"))
  {
    var members := MembersOf(j);
    UpdatedIsMembers(Asked(r), j);
    IdentityIff(r, members);
    assert |"ok"| == 2 && |"identity_mismatch"| == 17 && |"abandoned"| == 9;
    assert |"status"| == 6 && |"pid"| == 3 && |"expected_start_time_ticks"| == 25;
    StatusIff(Asked(r), members, "ok");
    StatusIff(Asked(r), members, "identity_mismatch");
    StatusIff(Asked(r), members, "abandoned");
  }
}
