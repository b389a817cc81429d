/** The operations the SDK generator emits, tag by tag (load_ops of scripts/codegen-sdks.py),
    and the method names it gives them. */
module CodegenOps {
  import opened Options
  import opened Text

  // ---- the input: the paths of the OpenAPI document, sorted ----

  // `opId`, as code points, is empty when the document gives none.
  datatype Operation = Operation(verb: string, opId: seq<int>, tags: Option<seq<string>>)
  datatype PathItem = PathItem(path: string, operations: seq<Operation>)

  // One operation of one path: what is emitted.
  datatype Occurrence = Occurrence(path: string, op: Operation)

  const API_PREFIX := "/api/"
  const SKIP_TAGS := ["openai"]

  function TagsOf(op: Operation): seq<string> {
    if op.tags.None? then ["system"] else op.tags.value
  }

  predicate Eligible(op: Operation) {
    op.verb in ["get", "post", "put", "patch", "delete"] && op.opId != []
  }

  // ---- the specification ----

  // The eligible operations in traversal order.
  function OfPath(path: string, ops: seq<Operation>): seq<Occurrence> {
    if ops == [] then []
    else
      var n := |ops| - 1;
      OfPath(path, ops[..n]) + if Eligible(ops[n]) then [Occurrence(path, ops[n])] else []
  }

  function Occurrences(paths: seq<PathItem>): seq<Occurrence> {
    if paths == [] then []
    else
      var n := |paths| - 1;
      Occurrences(paths[..n]) + if API_PREFIX <= paths[n].path then OfPath(paths[n].path, paths[n].operations) else []
  }

  ghost predicate Seen(os: seq<Occurrence>, id: seq<int>) {
    exists i :: 0 <= i < |os| && os[i].op.opId == id
  }

  // Those whose id did not occur before.
  ghost function Kept(os: seq<Occurrence>): seq<Occurrence> {
    if os == [] then []
    else
      var n := |os| - 1;
      Kept(os[..n]) + if Seen(os[..n], os[n].op.opId) then [] else [os[n]]
  }

  // One entry for each time the tag stands in the list.
  function Copies(o: Occurrence, tags: seq<string>, tag: string): seq<Occurrence> {
    if tags == [] then []
    else
      var n := |tags| - 1;
      Copies(o, tags[..n], tag) + if tags[n] == tag && tag !in SKIP_TAGS then [o] else []
  }

  function Listed(os: seq<Occurrence>, tag: string): seq<Occurrence> {
    if os == [] then []
    else
      var n := |os| - 1;
      Listed(os[..n], tag) + Copies(os[n], TagsOf(os[n].op), tag)
  }

  // ---- the code ----

  type TagOps = map<string, seq<Occurrence>>

  function Get(tagOps: TagOps, tag: string): seq<Occurrence> {
    if tag in tagOps then tagOps[tag] else []
  }

  // No tag is there without an operation.
  ghost predicate NoneEmpty(tagOps: TagOps) {
    forall tag :: tag in tagOps ==> tagOps[tag] != []
  }

  ghost predicate Emitted(r: TagOps, tagOps: TagOps, o: Occurrence, tags: seq<string>) {
    NoneEmpty(r) && forall tag :: Get(r, tag) == Get(tagOps, tag) + Copies(o, tags, tag)
  }

  function EmitTag(r: TagOps, o: Occurrence, tag: string): TagOps {
    if tag in SKIP_TAGS then r else r[tag := Get(r, tag) + [o]]
  }

  lemma CopiesSnoc(o: Occurrence, tags: seq<string>, t: string, tag: string)
    ensures Copies(o, tags + [t], tag) == Copies(o, tags, tag) + if t == tag && tag !in SKIP_TAGS then [o] else []
  {
    assert (tags + [t])[..|tags|] == tags;
  }

  lemma EmitStep(r: TagOps, tagOps: TagOps, o: Occurrence, tags: seq<string>, t: string)
    requires Emitted(r, tagOps, o, tags)
    ensures Emitted(EmitTag(r, o, t), tagOps, o, tags + [t])
  {
    forall tag ensures Get(EmitTag(r, o, t), tag) == Get(tagOps, tag) + Copies(o, tags + [t], tag) {
      CopiesSnoc(o, tags, t, tag);
      EmitAt(r, o, t, tag);
    }
  }

  lemma EmitAt(r: TagOps, o: Occurrence, t: string, tag: string)
    ensures Get(EmitTag(r, o, t), tag) == Get(r, tag) + if t == tag && tag !in SKIP_TAGS then [o] else []
  {
    assert Get(r, tag) + [] == Get(r, tag);
  }

  method EmitTags(tagOps: TagOps, o: Occurrence, tags: seq<string>) returns (r: TagOps)
    requires NoneEmpty(tagOps)
    ensures Emitted(r, tagOps, o, tags)
  {
    r := tagOps;
    var k := 0;
    while k < |tags|
      invariant 0 <= k <= |tags| && Emitted(r, tagOps, o, tags[..k])
    {
      EmitStep(r, tagOps, o, tags[..k], tags[k]);
      assert tags[..k] + [tags[k]] == tags[..k + 1];
      if tags[k] !in SKIP_TAGS {
        r := r[tags[k] := Get(r, tags[k]) + [o]];
      }
      k := k + 1;
    }
    assert tags[..k] == tags;
  }

  // What the state holds once the occurrences `os` have been visited.
  ghost predicate Holds(tagOps: TagOps, seen: set<seq<int>>, os: seq<Occurrence>) {
    && NoneEmpty(tagOps)
    && (forall id :: id in seen <==> Seen(os, id))
    && (forall tag :: Get(tagOps, tag) == Listed(Kept(os), tag))
  }

  lemma SeenSnoc(os: seq<Occurrence>, o: Occurrence, id: seq<int>)
    ensures Seen(os + [o], id) <==> Seen(os, id) || o.op.opId == id
  {
    var more := os + [o];
    assert more[|os|] == o;
    if Seen(os, id) {
      var i :| 0 <= i < |os| && os[i].op.opId == id;
      assert more[i] == os[i];
    }
  }

  lemma KeptSnoc(os: seq<Occurrence>, o: Occurrence)
    ensures Kept(os + [o]) == Kept(os) + if Seen(os, o.op.opId) then [] else [o]
  {
    assert (os + [o])[..|os|] == os;
  }

  lemma ListedSnoc(os: seq<Occurrence>, o: Occurrence, tag: string)
    ensures Listed(os + [o], tag) == Listed(os, tag) + Copies(o, TagsOf(o.op), tag)
  {
    assert (os + [o])[..|os|] == os;
  }

  lemma HoldsOld(tagOps: TagOps, seen: set<seq<int>>, os: seq<Occurrence>, o: Occurrence)
    requires Holds(tagOps, seen, os) && o.op.opId in seen
    ensures Holds(tagOps, seen, os + [o])
  {
    KeptSnoc(os, o);
    assert Kept(os) + [] == Kept(os);
    forall id ensures id in seen <==> Seen(os + [o], id) {
      SeenSnoc(os, o, id);
    }
  }

  lemma HoldsNew(r: TagOps, tagOps: TagOps, seen: set<seq<int>>, os: seq<Occurrence>, o: Occurrence)
    requires Holds(tagOps, seen, os) && o.op.opId !in seen && Emitted(r, tagOps, o, TagsOf(o.op))
    ensures Holds(r, seen + {o.op.opId}, os + [o])
  {
    KeptSnoc(os, o);
    forall id ensures id in seen + {o.op.opId} <==> Seen(os + [o], id) {
      SeenSnoc(os, o, id);
    }
    forall tag ensures Get(r, tag) == Listed(Kept(os + [o]), tag) {
      ListedSnoc(Kept(os), o, tag);
    }
  }

  method Visit(tagOps: TagOps, seen: set<seq<int>>, o: Occurrence, ghost os: seq<Occurrence>) returns (r: TagOps, s: set<seq<int>>)
    requires Holds(tagOps, seen, os)
    ensures Holds(r, s, os + [o])
  {
    r, s := tagOps, seen;
    if o.op.opId in seen {
      HoldsOld(tagOps, seen, os, o);
    } else {
      s := seen + {o.op.opId};
      r := EmitTags(tagOps, o, TagsOf(o.op));
      HoldsNew(r, tagOps, seen, os, o);
    }
  }

  method VisitPath(tagOps: TagOps, seen: set<seq<int>>, item: PathItem, ghost os: seq<Occurrence>) returns (r: TagOps, s: set<seq<int>>)
    requires Holds(tagOps, seen, os)
    ensures Holds(r, s, os + OfPath(item.path, item.operations))
  {
    r, s := tagOps, seen;
    var ops := item.operations;
    var j := 0;
    assert os + [] == os;
    while j < |ops|
      invariant 0 <= j <= |ops| && Holds(r, s, os + OfPath(item.path, ops[..j]))
    {
      assert ops[..j + 1][..j] == ops[..j];
      ghost var done := OfPath(item.path, ops[..j]);
      if Eligible(ops[j]) {
        var o := Occurrence(item.path, ops[j]);
        r, s := Visit(r, s, o, os + done);
        Reassociate(os, done, [o]);
      } else {
        assert done + [] == done;
      }
      j := j + 1;
    }
    assert ops[..j] == ops;
  }

  method LoadOps(paths: seq<PathItem>) returns (r: TagOps)
    ensures forall tag :: tag in r <==> Listed(Kept(Occurrences(paths)), tag) != []
    ensures forall tag :: tag in r ==> r[tag] == Listed(Kept(Occurrences(paths)), tag)
  {
    r := map[];
    var seen := {};
    var i := 0;
    while i < |paths|
      invariant 0 <= i <= |paths| && Holds(r, seen, Occurrences(paths[..i]))
    {
      assert paths[..i + 1][..i] == paths[..i];
      ghost var done := Occurrences(paths[..i]);
      if API_PREFIX <= paths[i].path {
        r, seen := VisitPath(r, seen, paths[i], done);
      } else {
        assert done + [] == done;
      }
      i := i + 1;
    }
    assert paths[..i] == paths;
    forall tag ensures tag in r <==> Get(r, tag) != [] {
    }
  }

  // ---- what is emitted: first occurrences, once per tag ----

  // o is in the list, and nothing before it has its id.
  ghost predicate IsFirst(os: seq<Occurrence>, o: Occurrence) {
    exists i :: 0 <= i < |os| && os[i] == o && !Seen(os[..i], o.op.opId)
  }

  lemma {:induction false} KeptAreFirst(os: seq<Occurrence>, o: Occurrence)
    ensures o in Kept(os) <==> IsFirst(os, o)
  {
    if os != [] {
      var n := |os| - 1;
      KeptAreFirst(os[..n], o);
      FirstSnoc(os[..n], os[n], o);
      assert os == os[..n] + [os[n]];
    }
  }

  lemma FirstSnoc(os: seq<Occurrence>, last: Occurrence, o: Occurrence)
    ensures IsFirst(os + [last], o) <==> IsFirst(os, o) || (last == o && !Seen(os, o.op.opId))
  {
    var more := os + [last];
    assert more[..|os|] == os && more[|os|] == last;
    if IsFirst(os, o) {
      var i :| 0 <= i < |os| && os[i] == o && !Seen(os[..i], o.op.opId);
      assert more[i] == o && more[..i] == os[..i];
    }
    if IsFirst(more, o) {
      var i :| 0 <= i < |more| && more[i] == o && !Seen(more[..i], o.op.opId);
      assert i < |os| ==> os[i] == o && more[..i] == os[..i];
    }
  }

  ghost predicate DistinctIds(os: seq<Occurrence>) {
    forall i, j :: 0 <= i < j < |os| ==> os[i].op.opId != os[j].op.opId
  }

  lemma {:induction false} KeptSeen(os: seq<Occurrence>, id: seq<int>)
    ensures Seen(Kept(os), id) <==> Seen(os, id)
  {
    if os != [] {
      var n := |os| - 1;
      KeptSeen(os[..n], id);
      assert os == os[..n] + [os[n]];
      SeenSnoc(os[..n], os[n], id);
      SeenSnoc(Kept(os[..n]), os[n], id);
      assert Kept(os[..n]) + [] == Kept(os[..n]);
    }
  }

  lemma {:induction false} KeptDistinct(os: seq<Occurrence>)
    ensures DistinctIds(Kept(os))
  {
    if os != [] {
      var n := |os| - 1;
      KeptDistinct(os[..n]);
      KeptSeen(os[..n], os[n].op.opId);
    }
  }

  ghost predicate NoRepeats(tags: seq<string>) {
    forall i, j :: 0 <= i < j < |tags| ==> tags[i] != tags[j]
  }

  lemma {:induction false} CopiesOnce(o: Occurrence, tags: seq<string>, tag: string)
    ensures tag !in tags || tag in SKIP_TAGS ==> Copies(o, tags, tag) == []
    ensures NoRepeats(tags) && tag in tags && tag !in SKIP_TAGS ==> Copies(o, tags, tag) == [o]
    ensures tag in tags && tag !in SKIP_TAGS ==> o in Copies(o, tags, tag)
    ensures forall x :: x in Copies(o, tags, tag) ==> x == o
  {
    if tags != [] {
      var n := |tags| - 1;
      CopiesOnce(o, tags[..n], tag);
      assert tags == tags[..n] + [tags[n]];
    }
  }

  lemma {:induction false} ListedExactly(os: seq<Occurrence>, tag: string, o: Occurrence)
    ensures o in Listed(os, tag) <==> o in os && tag in TagsOf(o.op) && tag !in SKIP_TAGS
  {
    if os != [] {
      var n := |os| - 1;
      ListedExactly(os[..n], tag, o);
      CopiesOnce(os[n], TagsOf(os[n].op), tag);
      assert os == os[..n] + [os[n]];
    }
  }

  lemma {:induction false} ListedDistinct(os: seq<Occurrence>, tag: string)
    requires DistinctIds(os) && forall o :: o in os ==> NoRepeats(TagsOf(o.op))
    ensures DistinctIds(Listed(os, tag))
  {
    if os != [] {
      var n := |os| - 1;
      ListedDistinct(os[..n], tag);
      var last := os[n];
      CopiesOnce(last, TagsOf(last.op), tag);
      forall i | 0 <= i < |Listed(os[..n], tag)| ensures Listed(os[..n], tag)[i].op.opId != last.op.opId {
        ListedExactly(os[..n], tag, Listed(os[..n], tag)[i]);
      }
    }
  }

  /** Under each tag stand exactly the operations that carry it and are the first in traversal
      order with their id, and with no tag repeated in a tag list no id stands there twice. */
  lemma EmittedOnce(paths: seq<PathItem>, tag: string, o: Occurrence)
    ensures o in Listed(Kept(Occurrences(paths)), tag) <==>
            IsFirst(Occurrences(paths), o) && tag in TagsOf(o.op) && tag !in SKIP_TAGS
    ensures (forall x :: x in Occurrences(paths) ==> NoRepeats(TagsOf(x.op))) ==>
            DistinctIds(Listed(Kept(Occurrences(paths)), tag))
  {
    var os := Occurrences(paths);
    KeptAreFirst(os, o);
    ListedExactly(Kept(os), tag, o);
    KeptDistinct(os);
    if forall x :: x in os ==> NoRepeats(TagsOf(x.op)) {
      forall x | x in Kept(os) ensures NoRepeats(TagsOf(x.op)) {
        KeptAreFirst(os, x);
      }
      ListedDistinct(Kept(os), tag);
    }
  }

  // ---- the same over the document itself ----

  predicate Takes(op: Operation) {
    && op.opId != []
    && (op.verb == "get" || op.verb == "post" || op.verb == "put" || op.verb == "patch" || op.verb == "delete")
  }

  // Operation m of a path is taken and has this id.
  predicate HasId(ops: seq<Operation>, m: nat, id: seq<int>) {
    m < |ops| && Takes(ops[m]) && ops[m].opId == id
  }

  ghost predicate SomeId(ops: seq<Operation>, id: seq<int>) {
    exists m: nat :: HasId(ops, m, id)
  }

  // The same within the document.
  ghost predicate PathHasId(paths: seq<PathItem>, n: nat, id: seq<int>) {
    n < |paths| && "/api/" <= paths[n].path && SomeId(paths[n].operations, id)
  }

  // Operation m is the first of its path with its id.
  ghost predicate FirstIn(ops: seq<Operation>, m: nat) {
    m < |ops| && Takes(ops[m]) && forall k: nat :: k < m ==> !HasId(ops, k, ops[m].opId)
  }

  // Operation m of path n is taken, and none before it in the document has its id.
  ghost predicate FirstAt(paths: seq<PathItem>, n: nat, m: nat) {
    && n < |paths| && "/api/" <= paths[n].path && FirstIn(paths[n].operations, m)
    && forall k: nat :: k < n ==> !PathHasId(paths, k, paths[n].operations[m].opId)
  }

  lemma {:induction false} SeenAppend(xs: seq<Occurrence>, ys: seq<Occurrence>, id: seq<int>)
    ensures Seen(xs + ys, id) <==> Seen(xs, id) || Seen(ys, id)
  {
    if ys == [] {
      assert xs + ys == xs;
    } else {
      var n := |ys| - 1;
      SeenAppend(xs, ys[..n], id);
      SeenSnoc(xs + ys[..n], ys[n], id);
      SeenSnoc(ys[..n], ys[n], id);
      LastApart(xs, ys);
    }
  }

  lemma {:induction false} FirstAppend(xs: seq<Occurrence>, ys: seq<Occurrence>, o: Occurrence)
    ensures IsFirst(xs + ys, o) <==> IsFirst(xs, o) || (IsFirst(ys, o) && !Seen(xs, o.op.opId))
  {
    if ys == [] {
      assert xs + ys == xs;
    } else {
      var n := |ys| - 1;
      FirstAppend(xs, ys[..n], o);
      SeenAppend(xs, ys[..n], o.op.opId);
      FirstSnoc(xs + ys[..n], ys[n], o);
      FirstSnoc(ys[..n], ys[n], o);
      LastApart(xs, ys);
    }
  }

  lemma OfPathSnoc(path: string, ops: seq<Operation>, op: Operation)
    ensures OfPath(path, ops + [op]) == OfPath(path, ops) + if Takes(op) then [Occurrence(path, op)] else []
  {
    assert (ops + [op])[..|ops|] == ops;
  }

  lemma SomeIdSnoc(ops: seq<Operation>, op: Operation, id: seq<int>)
    ensures SomeId(ops + [op], id) <==> SomeId(ops, id) || (Takes(op) && op.opId == id)
  {
    var more := ops + [op];
    assert HasId(more, |ops|, id) <==> Takes(op) && op.opId == id;
    if m: nat :| HasId(ops, m, id) {
      assert HasId(more, m, id);
    }
    if m: nat :| HasId(more, m, id) {
      assert m < |ops| ==> HasId(ops, m, id);
    }
  }

  lemma {:induction false} OfPathSeen(path: string, ops: seq<Operation>, id: seq<int>)
    ensures Seen(OfPath(path, ops), id) <==> SomeId(ops, id)
  {
    if ops != [] {
      var before, last := ops[..|ops| - 1], ops[|ops| - 1];
      assert ops == before + [last];
      OfPathSeen(path, before, id);
      OfPathSnoc(path, before, last);
      SomeIdSnoc(before, last, id);
      SeenSnoc(OfPath(path, before), Occurrence(path, last), id);
      assert OfPath(path, before) + [] == OfPath(path, before);
    }
  }

  // o is one of the operations that are the first of the path with their id.
  ghost predicate SomeFirstIn(path: string, ops: seq<Operation>, o: Occurrence) {
    exists m: nat :: FirstIn(ops, m) && o == Occurrence(path, ops[m])
  }

  lemma FirstInSnoc(ops: seq<Operation>, op: Operation, m: nat)
    ensures m < |ops| ==> (FirstIn(ops + [op], m) <==> FirstIn(ops, m))
    ensures FirstIn(ops + [op], |ops|) <==> Takes(op) && !SomeId(ops, op.opId)
  {
    var more := ops + [op];
    assert forall k: nat, id :: k < |ops| ==> (HasId(more, k, id) <==> HasId(ops, k, id));
  }

  lemma SomeFirstSnoc(path: string, ops: seq<Operation>, op: Operation, o: Occurrence)
    ensures SomeFirstIn(path, ops + [op], o) <==>
            SomeFirstIn(path, ops, o) || (o == Occurrence(path, op) && Takes(op) && !SomeId(ops, op.opId))
  {
    var more := ops + [op];
    FirstInSnoc(ops, op, |ops|);
    if m: nat :| FirstIn(ops, m) && o == Occurrence(path, ops[m]) {
      FirstInSnoc(ops, op, m);
      assert more[m] == ops[m];
    }
    if m: nat :| FirstIn(more, m) && o == Occurrence(path, more[m]) {
      FirstInSnoc(ops, op, m);
    }
  }

  lemma {:induction false} OfPathFirst(path: string, ops: seq<Operation>, o: Occurrence)
    ensures IsFirst(OfPath(path, ops), o) <==> SomeFirstIn(path, ops, o)
  {
    if ops != [] {
      var before, last := ops[..|ops| - 1], ops[|ops| - 1];
      assert ops == before + [last];
      OfPathFirst(path, before, o);
      OfPathSnoc(path, before, last);
      OfPathSeen(path, before, o.op.opId);
      SomeFirstSnoc(path, before, last, o);
      FirstSnoc(OfPath(path, before), Occurrence(path, last), o);
      assert OfPath(path, before) + [] == OfPath(path, before);
    }
  }

  lemma OccurrencesSnoc(paths: seq<PathItem>, item: PathItem)
    ensures Occurrences(paths + [item]) ==
            Occurrences(paths) + if "/api/" <= item.path then OfPath(item.path, item.operations) else []
  {
    assert (paths + [item])[..|paths|] == paths;
  }

  ghost predicate SomePathId(paths: seq<PathItem>, id: seq<int>) {
    exists n: nat :: PathHasId(paths, n, id)
  }

  lemma SomePathIdSnoc(paths: seq<PathItem>, item: PathItem, id: seq<int>)
    ensures SomePathId(paths + [item], id) <==>
            SomePathId(paths, id) || ("/api/" <= item.path && SomeId(item.operations, id))
  {
    var more := paths + [item];
    assert PathHasId(more, |paths|, id) <==> "/api/" <= item.path && SomeId(item.operations, id);
    if n: nat :| PathHasId(paths, n, id) {
      assert PathHasId(more, n, id);
    }
    if n: nat :| PathHasId(more, n, id) {
      assert n < |paths| ==> PathHasId(paths, n, id);
    }
  }

  lemma {:induction false} OccurrencesSeen(paths: seq<PathItem>, id: seq<int>)
    ensures Seen(Occurrences(paths), id) <==> SomePathId(paths, id)
  {
    if paths != [] {
      var before, last := paths[..|paths| - 1], paths[|paths| - 1];
      assert paths == before + [last];
      OccurrencesSeen(before, id);
      OccurrencesSnoc(before, last);
      SomePathIdSnoc(before, last, id);
      OfPathSeen(last.path, last.operations, id);
      SeenAppend(Occurrences(before), if "/api/" <= last.path then OfPath(last.path, last.operations) else [], id);
    }
  }

  ghost predicate IsFirstAt(paths: seq<PathItem>, n: nat, m: nat, o: Occurrence) {
    FirstAt(paths, n, m) && o == Occurrence(paths[n].path, paths[n].operations[m])
  }

  ghost predicate SomeFirstAt(paths: seq<PathItem>, o: Occurrence) {
    exists n: nat, m: nat :: IsFirstAt(paths, n, m, o)
  }

  lemma FirstAtSnoc(paths: seq<PathItem>, item: PathItem, n: nat, m: nat, o: Occurrence)
    ensures n < |paths| ==> (IsFirstAt(paths + [item], n, m, o) <==> IsFirstAt(paths, n, m, o))
    ensures IsFirstAt(paths + [item], |paths|, m, o) <==>
            "/api/" <= item.path && FirstIn(item.operations, m) && o == Occurrence(item.path, item.operations[m])
            && !SomePathId(paths, o.op.opId)
  {
    var more := paths + [item];
    assert forall k: nat, id :: k < |paths| ==> (PathHasId(more, k, id) <==> PathHasId(paths, k, id));
  }

  lemma SomeFirstAtSnoc(paths: seq<PathItem>, item: PathItem, o: Occurrence)
    ensures SomeFirstAt(paths + [item], o) <==>
            SomeFirstAt(paths, o) ||
            ("/api/" <= item.path && SomeFirstIn(item.path, item.operations, o) && !SomePathId(paths, o.op.opId))
  {
    var more := paths + [item];
    if n: nat, m: nat :| IsFirstAt(paths, n, m, o) {
      FirstAtSnoc(paths, item, n, m, o);
    }
    if m: nat :| FirstIn(item.operations, m) && o == Occurrence(item.path, item.operations[m]) {
      FirstAtSnoc(paths, item, |paths|, m, o);
    }
    if n: nat, m: nat :| IsFirstAt(more, n, m, o) {
      FirstAtSnoc(paths, item, n, m, o);
    }
  }

  lemma {:induction false} OccurrencesFirst(paths: seq<PathItem>, o: Occurrence)
    ensures IsFirst(Occurrences(paths), o) <==> SomeFirstAt(paths, o)
  {
    if paths != [] {
      var before, last := paths[..|paths| - 1], paths[|paths| - 1];
      assert paths == before + [last];
      OccurrencesFirst(before, o);
      OccurrencesSnoc(before, last);
      OccurrencesSeen(before, o.op.opId);
      SomeFirstAtSnoc(before, last, o);
      OfPathFirst(last.path, last.operations, o);
      FirstAppend(Occurrences(before), if "/api/" <= last.path then OfPath(last.path, last.operations) else [], o);
    }
  }

  /** Under a tag stand exactly the operations of the document that are taken, carry the tag, or
      none at all when it is "system", and have no earlier one with their id. */
  lemma EmittedIff(paths: seq<PathItem>, tag: string, o: Occurrence)
    ensures o in Listed(Kept(Occurrences(paths)), tag) <==>
            (exists n: nat, m: nat :: IsFirstAt(paths, n, m, o))
            && tag in (if o.op.tags.None? then ["system"] else o.op.tags.value) && tag != "openai"
  {
    EmittedOnce(paths, tag, o);
    OccurrencesFirst(paths, o);
  }

  lemma OneMoreListed(os: seq<Occurrence>, o: Occurrence, tag: string)
    ensures Listed(Kept(os), tag) <= Listed(Kept(os + [o]), tag)
  {
    KeptSnoc(os, o);
    if Seen(os, o.op.opId) {
      assert Kept(os) + [] == Kept(os);
    } else {
      ListedSnoc(Kept(os), o, tag);
    }
  }

  lemma {:induction false} ListedGrows(os: seq<Occurrence>, more: seq<Occurrence>, tag: string)
    ensures Listed(Kept(os), tag) <= Listed(Kept(os + more), tag)
  {
    if more == [] {
      assert os + more == os;
    } else {
      var n := |more| - 1;
      ListedGrows(os, more[..n], tag);
      OneMoreListed(os + more[..n], more[n], tag);
      LastApart(os, more);
    }
  }

  /** They stand in document order: what a later path adds comes behind what was there. */
  lemma LaterPathBehind(before: seq<PathItem>, item: PathItem, tag: string)
    ensures Listed(Kept(Occurrences(before)), tag) <= Listed(Kept(Occurrences(before + [item])), tag)
  {
    OccurrencesSnoc(before, item);
    ListedGrows(Occurrences(before), if "/api/" <= item.path then OfPath(item.path, item.operations) else [], tag);
  }

  lemma OperationSnoc(before: seq<PathItem>, path: string, ops: seq<Operation>, op: Operation)
    ensures Occurrences(before + [PathItem(path, ops + [op])]) ==
            Occurrences(before + [PathItem(path, ops)]) + if "/api/" <= path && Takes(op) then [Occurrence(path, op)] else []
  {
    OccurrencesSnoc(before, PathItem(path, ops));
    OccurrencesSnoc(before, PathItem(path, ops + [op]));
    OfPathSnoc(path, ops, op);
    if "/api/" <= path {
      Reassociate(Occurrences(before), OfPath(path, ops), if Takes(op) then [Occurrence(path, op)] else []);
    }
  }

  /** And so does what a later operation of a path adds. */
  lemma LaterOperationBehind(before: seq<PathItem>, path: string, ops: seq<Operation>, op: Operation, tag: string)
    ensures Listed(Kept(Occurrences(before + [PathItem(path, ops)])), tag)
            <= Listed(Kept(Occurrences(before + [PathItem(path, ops + [op])])), tag)
  {
    OperationSnoc(before, path, ops, op);
    ListedGrows(Occurrences(before + [PathItem(path, ops)]),
                if "/api/" <= path && Takes(op) then [Occurrence(path, op)] else [], tag);
  }

  // ---- method names ----

  const UNDERSCORE := [95]

  predicate IsLower(c: int) {
    97 <= c <= 122
  }

  predicate IsUpper(c: int) {
    65 <= c <= 90
  }

  predicate IsLetter(c: int) {
    IsLower(c) || IsUpper(c)
  }

  function ToUpper(c: int): int {
    if IsLower(c) then c - 32 else c
  }

  function ToLower(c: int): int {
    if IsUpper(c) then c + 32 else c
  }

  // str.title on ASCII: a letter is capital exactly when no letter comes right before it.
  function TitleFrom(s: seq<int>, afterLetter: bool): seq<int> {
    if s == [] then []
    else [if afterLetter then ToLower(s[0]) else ToUpper(s[0])] + TitleFrom(s[1..], IsLetter(s[0]))
  }

  function Title(s: seq<int>): seq<int> {
    TitleFrom(s, false)
  }

  function Titles(parts: seq<seq<int>>): seq<int> {
    if parts == [] then [] else Title(parts[0]) + Titles(parts[1..])
  }

  function Camel(id: seq<int>): seq<int> {
    var parts := Split(id, UNDERSCORE);
    parts[0] + Titles(parts[1..])
  }

  function Pascal(id: seq<int>): seq<int> {
    Titles(Split(id, UNDERSCORE))
  }

  // ---- the names in one pass ----

  // Both renamings drop the underscores and capitalise a letter that has no letter right
  // before it; the camel one leaves everything before the first underscore as it is.
  function OnePass(s: seq<int>, afterLetter: bool): seq<int> {
    if s == [] then []
    else if s[0] == 95 then OnePass(s[1..], false)
    else [if afterLetter then ToLower(s[0]) else ToUpper(s[0])] + OnePass(s[1..], IsLetter(s[0]))
  }

  function CamelPass(s: seq<int>): seq<int> {
    if s == [] then []
    else if s[0] == 95 then OnePass(s[1..], false)
    else [s[0]] + CamelPass(s[1..])
  }

  lemma SplitStep(s: seq<int>)
    requires s != []
    ensures var parts := Split(s[1..], UNDERSCORE);
            Split(s, UNDERSCORE) == if s[0] == 95 then [[]] + parts else [[s[0]] + parts[0]] + parts[1..]
  {
  }

  lemma {:induction false} TitlesOnePass(s: seq<int>, afterLetter: bool)
    ensures var parts := Split(s, UNDERSCORE);
            OnePass(s, afterLetter) == TitleFrom(parts[0], afterLetter) + Titles(parts[1..])
  {
    if s != [] {
      var parts := Split(s[1..], UNDERSCORE);
      SplitStep(s);
      if s[0] == 95 {
        TitlesOnePass(s[1..], false);
        assert ([[]] + parts)[1..] == parts;
        assert [] + Titles(parts) == Titles(parts);
      } else {
        TitlesOnePass(s[1..], IsLetter(s[0]));
        TitleCons(s[0], parts[0], afterLetter);
        assert ([[s[0]] + parts[0]] + parts[1..])[1..] == parts[1..];
      }
    } else {
      assert Split(s, UNDERSCORE) == [[]];
    }
  }

  lemma TitleCons(c: int, s: seq<int>, afterLetter: bool)
    ensures TitleFrom([c] + s, afterLetter) ==
            [if afterLetter then ToLower(c) else ToUpper(c)] + TitleFrom(s, IsLetter(c))
  {
    assert ([c] + s)[1..] == s;
  }

  lemma PascalOnePass(id: seq<int>)
    ensures Pascal(id) == OnePass(id, false)
  {
    TitlesOnePass(id, false);
  }

  lemma CamelUnderscore(id: seq<int>)
    requires id != [] && id[0] == 95
    ensures Camel(id) == Titles(Split(id[1..], UNDERSCORE))
  {
    SplitStep(id);
    var parts := Split(id[1..], UNDERSCORE);
    assert ([[]] + parts)[1..] == parts;
  }

  lemma CamelLetter(id: seq<int>)
    requires id != [] && id[0] != 95
    ensures Camel(id) == [id[0]] + Camel(id[1..])
  {
    SplitStep(id);
    var parts := Split(id[1..], UNDERSCORE);
    assert ([[id[0]] + parts[0]] + parts[1..])[1..] == parts[1..];
    assert ([id[0]] + parts[0]) + Titles(parts[1..]) == [id[0]] + (parts[0] + Titles(parts[1..]));
  }

  lemma {:induction false} CamelOnePass(id: seq<int>)
    ensures Camel(id) == CamelPass(id)
  {
    if id == [] {
      assert Split(id, UNDERSCORE) == [[]];
    } else if id[0] == 95 {
      CamelUnderscore(id);
      PascalOnePass(id[1..]);
    } else {
      CamelLetter(id);
      CamelOnePass(id[1..]);
    }
  }

  // ---- which ids share a name in Go ----

  // The id in lower case, with one underscore kept exactly where underscores stand between two
  // letters.  `afterLetter` is about the latest character kept, `gap` about underscores since.
  function SqueezeFrom(s: seq<int>, afterLetter: bool, gap: bool): seq<int> {
    if s == [] then []
    else if s[0] == 95 then SqueezeFrom(s[1..], afterLetter, true)
    else
      (if gap && afterLetter && IsLetter(s[0]) then UNDERSCORE else []) + [ToLower(s[0])] +
      SqueezeFrom(s[1..], IsLetter(s[0]), false)
  }

  function Squeeze(id: seq<int>): seq<int> {
    SqueezeFrom(id, false, false)
  }

  // Reading a name back: an underscore before a capital that follows a letter.
  function Unpascal(name: seq<int>, afterLetter: bool): seq<int> {
    if name == [] then []
    else
      (if afterLetter && IsUpper(name[0]) then UNDERSCORE else []) + [ToLower(name[0])] +
      Unpascal(name[1..], IsLetter(name[0]))
  }

  function FromPascal(name: seq<int>): seq<int> {
    Unpascal(name, false)
  }

  lemma UnpascalCons(c: int, rest: seq<int>, afterLetter: bool)
    ensures Unpascal([c] + rest, afterLetter) ==
            (if afterLetter && IsUpper(c) then UNDERSCORE else []) + [ToLower(c)] + Unpascal(rest, IsLetter(c))
  {
    assert ([c] + rest)[1..] == rest;
  }

  lemma {:induction false} UnpascalOnePass(s: seq<int>, afterLetter: bool, gap: bool)
    ensures Unpascal(OnePass(s, afterLetter && !gap), afterLetter) == SqueezeFrom(s, afterLetter, gap)
  {
    if s != [] {
      if s[0] == 95 {
        UnpascalOnePass(s[1..], afterLetter, true);
      } else {
        UnpascalOnePass(s[1..], IsLetter(s[0]), false);
        UnpascalCons(if afterLetter && !gap then ToLower(s[0]) else ToUpper(s[0]), OnePass(s[1..], IsLetter(s[0])), afterLetter);
      }
    }
  }

  lemma {:induction false} OnePassSqueezed(s: seq<int>, afterLetter: bool, gap: bool)
    ensures OnePass(SqueezeFrom(s, afterLetter, gap), afterLetter) == OnePass(s, afterLetter && !gap)
  {
    if s != [] {
      if s[0] == 95 {
        OnePassSqueezed(s[1..], afterLetter, true);
      } else {
        OnePassSqueezed(s[1..], IsLetter(s[0]), false);
        var rest := SqueezeFrom(s[1..], IsLetter(s[0]), false);
        OnePassCons(ToLower(s[0]), rest, gap && afterLetter && IsLetter(s[0]), afterLetter);
      }
    }
  }

  lemma OnePassCons(c: int, rest: seq<int>, marked: bool, afterLetter: bool)
    requires c != 95
    ensures OnePass((if marked then UNDERSCORE else []) + [c] + rest, afterLetter) ==
            [if afterLetter && !marked then ToLower(c) else ToUpper(c)] + OnePass(rest, IsLetter(c))
  {
    var s := (if marked then UNDERSCORE else []) + [c] + rest;
    if marked {
      assert s[1..] == [c] + rest && ([c] + rest)[1..] == rest;
    } else {
      assert s == [c] + rest && s[1..] == rest;
    }
  }

  /** What can be read back from a Pascal name is the squeezed id, whatever the id. */
  lemma PascalRoundTrip(id: seq<int>)
    ensures FromPascal(Pascal(id)) == Squeeze(id) && Pascal(Squeeze(id)) == Pascal(id)
  {
    PascalOnePass(id);
    PascalOnePass(Squeeze(id));
    UnpascalOnePass(id, false, false);
    OnePassSqueezed(id, false, false);
  }

  /** Two ids are one method in Go if and only if they squeeze to the same id. */
  lemma PascalClashIff(a: seq<int>, b: seq<int>)
    ensures Pascal(a) == Pascal(b) <==> Squeeze(a) == Squeeze(b)
  {
    PascalRoundTrip(a);
    PascalRoundTrip(b);
  }

  // ---- and in JavaScript ----

  // The id in lower case, with one underscore exactly before each letter that is a capital of
  // the first segment or, in a later segment, has no letter right before it.
  function Marked(c: int): seq<int> {
    UNDERSCORE + [ToLower(c)]
  }

  function TailKey(s: seq<int>, afterLetter: bool): seq<int> {
    if s == [] then []
    else if s[0] == 95 then TailKey(s[1..], false)
    else (if IsLetter(s[0]) && !afterLetter then Marked(s[0]) else [ToLower(s[0])]) + TailKey(s[1..], IsLetter(s[0]))
  }

  function CamelKey(s: seq<int>): seq<int> {
    if s == [] then []
    else if s[0] == 95 then TailKey(s[1..], false)
    else (if IsUpper(s[0]) then Marked(s[0]) else [s[0]]) + CamelKey(s[1..])
  }

  // Reading a name back: an underscore before every capital.
  function FromCamel(name: seq<int>): seq<int> {
    if name == [] then []
    else (if IsUpper(name[0]) then Marked(name[0]) else [name[0]]) + FromCamel(name[1..])
  }

  lemma {:induction false} FromCamelTail(s: seq<int>, afterLetter: bool)
    ensures FromCamel(OnePass(s, afterLetter)) == TailKey(s, afterLetter)
  {
    if s != [] {
      if s[0] == 95 {
        FromCamelTail(s[1..], false);
      } else {
        FromCamelTail(s[1..], IsLetter(s[0]));
        assert OnePass(s, afterLetter)[1..] == OnePass(s[1..], IsLetter(s[0]));
      }
    }
  }

  lemma {:induction false} FromCamelPass(s: seq<int>)
    ensures FromCamel(CamelPass(s)) == CamelKey(s)
  {
    if s != [] {
      if s[0] == 95 {
        FromCamelTail(s[1..], false);
      } else {
        FromCamelPass(s[1..]);
        assert CamelPass(s)[1..] == CamelPass(s[1..]);
      }
    }
  }

  // Without underscores in it, a name is determined by what is read back from it.
  lemma {:induction false} FromCamelInjective(m: seq<int>, n: seq<int>)
    requires NoUnderscore(m) && NoUnderscore(n) && FromCamel(m) == FromCamel(n)
    ensures m == n
  {
    if m != [] && n != [] {
      var x, y := FromCamel(m), FromCamel(n);
      FirstRead(m);
      FirstRead(n);
      assert m[0] == n[0];
      FromCamelInjective(m[1..], n[1..]);
      assert m == [m[0]] + m[1..] && n == [n[0]] + n[1..];
    }
  }

  lemma FirstRead(m: seq<int>)
    requires m != [] && m[0] != 95
    ensures var x := FromCamel(m);
            && x != [] && (IsUpper(m[0]) <==> x[0] == 95)
            && if IsUpper(m[0]) then |x| > 1 && x[1] == m[0] + 32 && x[2..] == FromCamel(m[1..])
               else x[0] == m[0] && x[1..] == FromCamel(m[1..])
  {
  }

  predicate NoUnderscore(s: seq<int>) {
    forall i :: 0 <= i < |s| ==> s[i] != 95
  }

  lemma {:induction false} OnePassPlain(s: seq<int>, afterLetter: bool)
    ensures NoUnderscore(OnePass(s, afterLetter))
  {
    if s != [] { OnePassPlain(s[1..], s[0] != 95 && IsLetter(s[0])); }
  }

  lemma {:induction false} CamelPassPlain(s: seq<int>)
    ensures NoUnderscore(CamelPass(s))
  {
    if s != [] {
      OnePassPlain(s[1..], false);
      CamelPassPlain(s[1..]);
    }
  }

  /** What can be read back from a camel name is the id's key, whatever the id. */
  lemma CamelRoundTrip(id: seq<int>)
    ensures FromCamel(Camel(id)) == CamelKey(id)
  {
    CamelOnePass(id);
    FromCamelPass(id);
  }

  /** Two ids are one method in JavaScript if and only if they have the same key. */
  lemma CamelClashIff(a: seq<int>, b: seq<int>)
    ensures Camel(a) == Camel(b) <==> CamelKey(a) == CamelKey(b)
  {
    CamelRoundTrip(a);
    CamelRoundTrip(b);
    CamelOnePass(a);
    CamelOnePass(b);
    CamelPassPlain(a);
    CamelPassPlain(b);
    if CamelKey(a) == CamelKey(b) {
      FromCamelInjective(Camel(a), Camel(b));
    }
  }

  // ---- ids that are their own keys ----

  // Segments of lower-case letters followed by digits.
  predicate GoodFrom(s: seq<int>, afterLetter: bool, atStart: bool) {
    if s == [] then !atStart
    else if s[0] == 95 then !atStart && GoodFrom(s[1..], false, true)
    else if IsLower(s[0]) then (atStart || afterLetter) && GoodFrom(s[1..], true, false)
    else !atStart && 48 <= s[0] <= 57 && GoodFrom(s[1..], false, false)
  }

  predicate GoodId(id: seq<int>) {
    GoodFrom(id, false, true)
  }

  lemma Rejoin(s: seq<int>)
    requires s != []
    ensures [s[0]] + s[1..] == s && (UNDERSCORE + [s[0]]) + s[1..] == UNDERSCORE + s
  {
  }

  lemma {:induction false} GoodTailKey(s: seq<int>, afterLetter: bool, atStart: bool)
    requires GoodFrom(s, afterLetter, atStart)
    ensures TailKey(s, !atStart && afterLetter) == if atStart then UNDERSCORE + s else s
  {
    if s != [] {
      if s[0] == 95 {
        GoodTailKey(s[1..], false, true);
      } else {
        GoodTailKey(s[1..], IsLower(s[0]), false);
        Rejoin(s);
      }
    }
  }

  lemma {:induction false} GoodCamelKey(s: seq<int>, afterLetter: bool, atStart: bool)
    requires GoodFrom(s, afterLetter, atStart)
    ensures CamelKey(s) == s
  {
    if s != [] {
      if s[0] == 95 {
        GoodTailKey(s[1..], false, true);
      } else {
        GoodCamelKey(s[1..], IsLower(s[0]), false);
        assert [s[0]] + s[1..] == s;
      }
    }
  }

  lemma {:induction false} GoodPasses(s: seq<int>, afterLetter: bool)
    requires GoodFrom(s, afterLetter, false)
    ensures OnePass(s, afterLetter) == CamelPass(s)
  {
    if s != [] && s[0] != 95 {
      GoodPasses(s[1..], IsLower(s[0]));
    }
  }

  /** No two ids of such segments share a name, in either language, and the camel name reads
      back as the id itself. */
  lemma GoodIdsNeverClash(a: seq<int>, b: seq<int>)
    requires GoodId(a) && GoodId(b)
    ensures FromCamel(Camel(a)) == a
    ensures Camel(a) == Camel(b) ==> a == b
    ensures Pascal(a) == Pascal(b) ==> a == b
  {
    GoodNames(a);
    GoodNames(b);
  }

  lemma GoodNames(id: seq<int>)
    requires GoodId(id)
    ensures FromCamel(Camel(id)) == id
    ensures Pascal(id) != [] && Camel(id) == [ToLower(Pascal(id)[0])] + Pascal(id)[1..]
  {
    CamelRoundTrip(id);
    GoodCamelKey(id, false, true);
    PascalOnePass(id);
    CamelOnePass(id);
    GoodPasses(id[1..], true);
  }

  // ---- the methods of a resource ----

  ghost predicate AllDiffer(ops: seq<Occurrence>, name: seq<int> -> seq<int>) {
    forall i, j :: 0 <= i < j < |ops| ==> name(ops[i].op.opId) != name(ops[j].op.opId)
  }

  /** The methods of a generated resource have different names if and only if their ids have
      different keys, in JavaScript and in Go. */
  lemma MethodsClashIff(paths: seq<PathItem>, tag: string)
    ensures var ops := Listed(Kept(Occurrences(paths)), tag);
            && (AllDiffer(ops, Camel) <==> AllDiffer(ops, CamelKey))
            && (AllDiffer(ops, Pascal) <==> AllDiffer(ops, Squeeze))
  {
    var ops := Listed(Kept(Occurrences(paths)), tag);
    forall i, j | 0 <= i < j < |ops|
      ensures Camel(ops[i].op.opId) == Camel(ops[j].op.opId) <==> CamelKey(ops[i].op.opId) == CamelKey(ops[j].op.opId)
      ensures Pascal(ops[i].op.opId) == Pascal(ops[j].op.opId) <==> Squeeze(ops[i].op.opId) == Squeeze(ops[j].op.opId)
    {
      CamelClashIff(ops[i].op.opId, ops[j].op.opId);
      PascalClashIff(ops[i].op.opId, ops[j].op.opId);
    }
  }

  /** So with tag lists without repeats and ids of such segments no two methods clash. */
  lemma MethodsNeverClash(paths: seq<PathItem>, tag: string)
    requires forall x :: x in Occurrences(paths) ==> NoRepeats(TagsOf(x.op)) && GoodId(x.op.opId)
    ensures var ops := Listed(Kept(Occurrences(paths)), tag);
            AllDiffer(ops, Camel) && AllDiffer(ops, Pascal)
  {
    var ops := Listed(Kept(Occurrences(paths)), tag);
    forall i, j | 0 <= i < j < |ops|
      ensures Camel(ops[i].op.opId) != Camel(ops[j].op.opId) && Pascal(ops[i].op.opId) != Pascal(ops[j].op.opId)
    {
      EmittedOnce(paths, tag, ops[i]);
      EmittedOnce(paths, tag, ops[j]);
      GoodIdsNeverClash(ops[i].op.opId, ops[j].op.opId);
    }
  }

  // ---- two families that do clash ----

  lemma {:induction false} SqueezeDoubled(p: seq<int>, s: seq<int>, afterLetter: bool, gap: bool)
    ensures SqueezeFrom(p + [95, 95] + s, afterLetter, gap) == SqueezeFrom(p + [95] + s, afterLetter, gap)
  {
    var two, one := p + [95, 95] + s, p + [95] + s;
    if p == [] {
      assert two[1..] == [95] + s && ([95] + s)[1..] == s && one[1..] == s;
    } else {
      assert two[1..] == p[1..] + [95, 95] + s && one[1..] == p[1..] + [95] + s;
      SqueezeDoubled(p[1..], s, if p[0] == 95 then afterLetter else IsLetter(p[0]), p[0] == 95);
    }
  }

  lemma {:induction false} TailKeyDoubled(p: seq<int>, s: seq<int>, afterLetter: bool)
    ensures TailKey(p + [95, 95] + s, afterLetter) == TailKey(p + [95] + s, afterLetter)
  {
    var two, one := p + [95, 95] + s, p + [95] + s;
    if p == [] {
      assert two[1..] == [95] + s && ([95] + s)[1..] == s && one[1..] == s;
    } else {
      assert two[1..] == p[1..] + [95, 95] + s && one[1..] == p[1..] + [95] + s;
      TailKeyDoubled(p[1..], s, p[0] != 95 && IsLetter(p[0]));
    }
  }

  lemma {:induction false} CamelKeyDoubled(p: seq<int>, s: seq<int>)
    ensures CamelKey(p + [95, 95] + s) == CamelKey(p + [95] + s)
  {
    var two, one := p + [95, 95] + s, p + [95] + s;
    if p == [] {
      assert two[1..] == [95] + s && ([95] + s)[1..] == s && one[1..] == s;
    } else {
      assert two[1..] == p[1..] + [95, 95] + s && one[1..] == p[1..] + [95] + s;
      if p[0] == 95 {
        TailKeyDoubled(p[1..], s, false);
      } else {
        CamelKeyDoubled(p[1..], s);
      }
    }
  }

  /** An empty segment leaves no trace: wherever an underscore is doubled, both names are
      those of the id without the doubling. */
  lemma EmptySegmentsClash(p: seq<int>, s: seq<int>)
    ensures Camel(p + [95, 95] + s) == Camel(p + [95] + s)
    ensures Pascal(p + [95, 95] + s) == Pascal(p + [95] + s)
  {
    CamelKeyDoubled(p, s);
    CamelClashIff(p + [95, 95] + s, p + [95] + s);
    SqueezeDoubled(p, s, false, false);
    PascalClashIff(p + [95, 95] + s, p + [95] + s);
  }

  lemma {:induction false} GapIsInert(q: seq<int>)
    ensures SqueezeFrom(q, false, true) == SqueezeFrom(q, false, false)
  {
    if q != [] && q[0] == 95 {
      GapIsInert(q[1..]);
    }
  }

  lemma {:induction false} SqueezeBreak(p: seq<int>, q: seq<int>, afterLetter: bool, gap: bool)
    requires if p == [] then gap || !afterLetter else !IsLetter(p[|p| - 1])
    ensures SqueezeFrom(p + [95] + q, afterLetter, gap) == SqueezeFrom(p + q, afterLetter, gap)
  {
    var s, t := p + [95] + q, p + q;
    if p == [] {
      assert s[1..] == q && t == q;
      if !gap { GapIsInert(q); }
    } else {
      assert s[1..] == p[1..] + [95] + q && t[1..] == p[1..] + q;
      SqueezeBreak(p[1..], q, if p[0] == 95 then afterLetter else IsLetter(p[0]), p[0] == 95);
    }
  }

  /** And where no letter stands right before it, an underscore leaves no trace in the Pascal
      name: "a2b" and "a2_b" are one method in Go. */
  lemma DigitsClash(p: seq<int>, q: seq<int>)
    requires p == [] || !IsLetter(p[|p| - 1])
    ensures Pascal(p + [95] + q) == Pascal(p + q)
  {
    SqueezeBreak(p, q, false, false);
    PascalClashIff(p + [95] + q, p + q);
  }
}
