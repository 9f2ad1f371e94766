/** The mode-2 dual writer (pkg/apiserver/rest/dualwriter_mode2.go): every write
    goes to the legacy store first and is then mirrored into the unified store;
    reads prefer the unified store and fall back to the legacy one.

    The two stores are scripted: each operation of a store is a function of its
    arguments, and the legacy store may lack a capability. Every operation of the
    dual writer returns, besides its Go result, the trace of store calls it made. */
module DualWriterMode2 {
  import opened Common
  import opened Objects

  datatype Error =
    | NotFound                 // apierrors.IsNotFound holds for it
    | StoreError(reason: string)  // any other error of a store or of the update transform
    | NoCreateMethod           // errNoCreateMethod
    | ListerMissing            // errDualWriterListerMissing
    | DeleterMissing           // errDualWriterDeleterMissing
    | NoUpdateMethod           // errNoUpdateMethod
    | AssignmentToNilMap       // the runtime panic of writing into a nil map

  /** Go's (runtime.Object, error) for Create and Get: a failure may still carry an object. */
  datatype Reply = Ok(obj: Obj) | Err(partial: Option<Obj>, err: Error)

  /** Go's (runtime.Object, bool, error) for Delete; async is the second result. */
  datatype DeleteReply = DeleteReply(obj: Option<Obj>, async: bool, err: Option<Error>)

  /** Go's (runtime.Object, bool, error) for Update; created is the second result. */
  datatype UpdateReply =
    | Updated(obj: Obj, created: bool)
    | UpdateFailed(partial: Option<Obj>, created: bool, err: Error)

  /** A list object: its own metadata (opaque here) and its items. */
  datatype ObjList = ObjList(meta: string, items: seq<Obj>)

  /** One store. The capability flags say which of rest.Creater, rest.Lister,
      rest.GracefulDeleter and rest.Updater the store implements; update receives
      the object that the update wrapper forces. */
  datatype Store = Store(
    isCreater: bool, isLister: bool, isDeleter: bool, isUpdater: bool,
    create: Obj -> Reply,
    get: string -> Reply,
    list: Result<ObjList, Error>,
    delete: string -> DeleteReply,
    update: (string, Obj) -> UpdateReply)

  datatype DualWriter = DualWriter(legacy: Store, unified: Store)

  datatype Side = Legacy | Unified

  /** A store call, with the arguments the model can see. */
  datatype Call =
    | CreateCall(side: Side, obj: Obj)
    | GetCall(side: Side, name: string)
    | ListCall(side: Side)
    | DeleteCall(side: Side, name: string)
    | UpdateCall(side: Side, name: string, obj: Obj)

  /** A result together with the store calls made to compute it. */
  datatype Traced<T> = Traced(value: T, calls: seq<Call>)

  /** enrichObject: the copy takes the original's labels, and the original's
      annotations are written over the copy's. Writing into the copy's nil
      annotation map panics in Go; that is the AssignmentToNilMap failure. */
  function EnrichObject(orig: Obj, copy: Obj): (r: Result<Obj, Error>)
    ensures r.Failure? <==> copy.annotations.None? && |AnnotationsOf(orig)| > 0
    ensures r.Failure? ==> r.error == AssignmentToNilMap
    ensures r.Success? ==> Enriched(orig, copy, r.value)
  {
    var added := AnnotationsOf(orig);
    match copy.annotations
    case None => if |added| == 0 then Success(copy.(labels := orig.labels)) else Failure(AssignmentToNilMap)
    case Some(ac) => Success(copy.(labels := orig.labels, annotations := Some(ac + added)))
  }

  /** r is copy with orig's labels, and with every annotation of either object,
      orig's value winning on a shared key; a nil annotation map stays nil. */
  ghost predicate Enriched(orig: Obj, copy: Obj, r: Obj) {
    && r.labels == orig.labels
    && r.name == copy.name && r.namespace == copy.namespace && r.payload == copy.payload
    && r.resourceVersion == copy.resourceVersion && r.uid == copy.uid
    && r.annotations.Some? == copy.annotations.Some?
    && (forall k :: k in AnnotationsOf(r) <==> k in AnnotationsOf(orig) || k in AnnotationsOf(copy))
    && (forall k | k in AnnotationsOf(orig) :: AnnotationsOf(r)[k] == AnnotationsOf(orig)[k])
    && (forall k | k in AnnotationsOf(copy) && k !in AnnotationsOf(orig) :: AnnotationsOf(r)[k] == AnnotationsOf(copy)[k])
  }

  /** Enriching twice with the same original changes nothing more. */
  lemma EnrichIdempotent(orig: Obj, copy: Obj)
    requires EnrichObject(orig, copy).Success?
    ensures EnrichObject(orig, EnrichObject(orig, copy).value) == EnrichObject(orig, copy)
  {
    var once := EnrichObject(orig, copy).value;
    if copy.annotations.Some? {
      var ac, added := copy.annotations.value, AnnotationsOf(orig);
      assert ac + added + added == ac + added;
    }
  }

  /** Create: create in the legacy store; on success mirror the created object,
      enriched with the original's labels and annotations and with its resource
      version and UID cleared, into the unified store and return that answer. */
  method Create(d: DualWriter, obj: Obj) returns (r: Reply, calls: seq<Call>)
    ensures !d.legacy.isCreater ==> r == Err(None, NoCreateMethod) && calls == []
    // a failed legacy create is returned as is, and the unified store is never asked
    ensures d.legacy.isCreater && d.legacy.create(obj).Err? ==>
      r == d.legacy.create(obj) && calls == [CreateCall(Legacy, obj)]
    ensures d.legacy.isCreater && d.legacy.create(obj).Ok? ==>
      var created := d.legacy.create(obj).obj;
      match EnrichObject(obj, created)
      case Failure(e) => r == Err(Some(created), e) && calls == [CreateCall(Legacy, obj)]
      case Success(_) =>
        && |calls| == 2 && calls[0] == CreateCall(Legacy, obj) && calls[1].CreateCall? && calls[1].side == Unified
        && MirrorFor(obj, created, calls[1].obj) && r == d.unified.create(calls[1].obj)
  {
    if !d.legacy.isCreater {
      return Err(None, NoCreateMethod), [];
    }
    var legacyReply := d.legacy.create(obj);
    calls := [CreateCall(Legacy, obj)];
    if legacyReply.Err? {
      return legacyReply, calls;
    }
    var created := legacyReply.obj;
    var enriched := EnrichObject(obj, created);
    if enriched.Failure? {
      return Err(Some(created), enriched.error), calls;
    }
    var c := enriched.value;
    // the unified create expects an empty resource version
    c := c.(resourceVersion := "", uid := "");
    r := d.unified.create(c);
    calls := calls + [CreateCall(Unified, c)];
  }

  /** What Create sends to the unified store: the legacy result enriched from the
      original, with no resource version and no UID. */
  ghost predicate MirrorFor(orig: Obj, created: Obj, m: Obj) {
    && Enriched(orig, created.(resourceVersion := "", uid := ""), m)
    && m.resourceVersion == "" && m.uid == ""
  }

  /** Get: the unified store's answer if it has one, otherwise the legacy store's. */
  function Get(d: DualWriter, name: string): (t: Traced<Reply>)
    ensures 1 <= |t.calls| <= 2 && t.calls[0] == GetCall(Unified, name)
    // the legacy store is asked exactly when the unified one fails, whatever the error
    ensures |t.calls| == 2 <==> d.unified.get(name).Err?
    ensures |t.calls| == 2 ==> t.calls[1] == GetCall(Legacy, name) && t.value == d.legacy.get(name)
    ensures t.value.Ok? <==> d.unified.get(name).Ok? || d.legacy.get(name).Ok?
    ensures d.unified.get(name).Ok? ==> t.value == d.unified.get(name)
  {
    var u := d.unified.get(name);
    if u.Ok? then Traced(u, [GetCall(Unified, name)])
    else Traced(d.legacy.get(name), [GetCall(Unified, name), GetCall(Legacy, name)])
  }

  /** Delete: the legacy store decides the answer; the unified store is then asked
      too unless the legacy store failed with anything but not-found. */
  function Delete(d: DualWriter, name: string): (t: Traced<DeleteReply>)
    ensures !d.legacy.isDeleter ==> t == Traced(DeleteReply(None, false, Some(DeleterMissing)), [])
    ensures d.legacy.isDeleter ==> t.value == d.legacy.delete(name) && |t.calls| >= 1 && t.calls[0] == DeleteCall(Legacy, name)
    ensures d.legacy.isDeleter ==>
      var e := d.legacy.delete(name).err;
      (DeleteCall(Unified, name) in t.calls <==> e.None? || e == Some(NotFound))
  {
    if !d.legacy.isDeleter then Traced(DeleteReply(None, false, Some(DeleterMissing)), [])
    else
      var fromLegacy := d.legacy.delete(name);
      if fromLegacy.err.Some? && fromLegacy.err.value != NotFound then
        Traced(fromLegacy, [DeleteCall(Legacy, name)])
      else
        // whatever the unified store answers is only logged
        Traced(fromLegacy, [DeleteCall(Legacy, name), DeleteCall(Unified, name)])
  }

  /** The unified store's delete never changes what Delete returns. */
  lemma DeleteIgnoresUnified(d: DualWriter, other: string -> DeleteReply, name: string)
    ensures Delete(d, name) == Delete(d.(unified := d.unified.(delete := other)), name)
  {
  }

  /** Update: read the current object through Get, apply the update to it, write
      the result to the legacy store, then mirror the legacy answer, enriched from
      the updated object and stamped with the current object's resource version and
      UID, into the unified store and return that answer. */
  method Update(d: DualWriter, name: string, transform: Obj -> Result<Obj, Error>) returns (r: UpdateReply, calls: seq<Call>)
    ensures !d.legacy.isUpdater ==> r == UpdateFailed(None, false, NoUpdateMethod) && calls == []
    ensures d.legacy.isUpdater ==> Get(d, name).calls <= calls
    ensures d.legacy.isUpdater && Get(d, name).value.Err? ==>
      r == UpdateFailed(None, false, Get(d, name).value.err) && calls == Get(d, name).calls
    ensures d.legacy.isUpdater && Get(d, name).value.Ok? && transform(Get(d, name).value.obj).Failure? ==>
      r == UpdateFailed(None, false, transform(Get(d, name).value.obj).error) && calls == Get(d, name).calls
    ensures d.legacy.isUpdater && Get(d, name).value.Ok? && transform(Get(d, name).value.obj).Success? ==>
      var current, updated := Get(d, name).value.obj, transform(Get(d, name).value.obj).value;
      var fromLegacy, before := d.legacy.update(name, updated), Get(d, name).calls;
      && |calls| > |before| && calls[|before|] == UpdateCall(Legacy, name, updated)
      && (fromLegacy.UpdateFailed? ==> r == fromLegacy && |calls| == |before| + 1)
      && (fromLegacy.Updated? && EnrichObject(updated, fromLegacy.obj).Failure? ==>
            r == UpdateFailed(Some(fromLegacy.obj), false, AssignmentToNilMap) && |calls| == |before| + 1)
      && (fromLegacy.Updated? && EnrichObject(updated, fromLegacy.obj).Success? ==>
            && |calls| == |before| + 2 && calls[|before| + 1].UpdateCall? && calls[|before| + 1].side == Unified
            && calls[|before| + 1].name == name
            && StampedMirror(updated, fromLegacy.obj, current, calls[|before| + 1].obj)
            && r == d.unified.update(name, calls[|before| + 1].obj))
  {
    if !d.legacy.isUpdater {
      return UpdateFailed(None, false, NoUpdateMethod), [];
    }
    var got := Get(d, name);
    calls := got.calls;
    if got.value.Err? {
      return UpdateFailed(None, false, got.value.err), calls;
    }
    var current := got.value.obj;
    var transformed := transform(current);
    if transformed.Failure? {
      return UpdateFailed(None, false, transformed.error), calls;
    }
    var updated := transformed.value;
    var fromLegacy := d.legacy.update(name, updated);
    calls := calls + [UpdateCall(Legacy, name, updated)];
    if fromLegacy.UpdateFailed? {
      return fromLegacy, calls;
    }
    var enriched := EnrichObject(updated, fromLegacy.obj);
    if enriched.Failure? {
      return UpdateFailed(Some(fromLegacy.obj), false, enriched.error), calls;
    }
    var o := enriched.value;
    // keep the same UID and resource version
    o := o.(resourceVersion := current.resourceVersion, uid := current.uid);
    r := d.unified.update(name, o);
    calls := calls + [UpdateCall(Unified, name, o)];
  }

  /** What Update sends to the unified store: the legacy answer enriched from the
      updated object, carrying the resource version and UID the object had before. */
  ghost predicate StampedMirror(updated: Obj, fromLegacy: Obj, current: Obj, m: Obj) {
    && Enriched(updated, fromLegacy.(resourceVersion := current.resourceVersion, uid := current.uid), m)
    && m.resourceVersion == current.resourceVersion && m.uid == current.uid
  }

  /** The index of the last item of s with each name. */
  function IndexByName(s: seq<Obj>): (m: map<string, int>)
    ensures forall k | k in m :: 0 <= m[k] < |s| && s[m[k]].name == k
  {
    if s == [] then map[] else IndexByName(s[..|s| - 1])[s[|s| - 1].name := |s| - 1]
  }

  /** The last item of s with the given name, if any. */
  function LastNamed(s: seq<Obj>, name: string): (r: Option<Obj>)
    ensures r.Some? ==> r.value in s && r.value.name == name
    ensures r.None? <==> forall i | 0 <= i < |s| :: s[i].name != name
  {
    if s == [] then None
    else if s[|s| - 1].name == name then Some(s[|s| - 1])
    else LastNamed(s[..|s| - 1], name)
  }

  /** The name index of List finds exactly the last item of each name. */
  lemma {:induction false} IndexByNameFindsLast(s: seq<Obj>, name: string)
    ensures name in IndexByName(s) <==> LastNamed(s, name).Some?
    ensures name in IndexByName(s) ==> s[IndexByName(s)[name]] == LastNamed(s, name).value
  {
    if s != [] {
      IndexByNameFindsLast(s[..|s| - 1], name);
      var prefix := s[..|s| - 1];
      if s[|s| - 1].name != name && name in IndexByName(prefix) {
        assert s[IndexByName(prefix)[name]] == prefix[IndexByName(prefix)[name]];
      }
    }
  }

  /** One item of the merged list: the unified item with its name, if any. */
  function MergedItem(item: Obj, fromUnified: seq<Obj>): Obj {
    match LastNamed(fromUnified, item.name)
    case Some(replacement) => replacement
    case None => item
  }

  /** The items List returns: the legacy items, in their order, each replaced by
      the last unified item of the same name. */
  function MergedByName(fromLegacy: seq<Obj>, fromUnified: seq<Obj>): (merged: seq<Obj>)
    ensures |merged| == |fromLegacy|
    ensures forall i | 0 <= i < |merged| :: merged[i] == MergedItem(fromLegacy[i], fromUnified)
  {
    seq(|fromLegacy|, i requires 0 <= i < |fromLegacy| => MergedItem(fromLegacy[i], fromUnified))
  }

  /** Each merged item keeps its legacy name: it is the legacy item itself when
      the unified list has no item of that name, and otherwise comes from the
      unified list, so unified items with no legacy counterpart never appear. */
  lemma MergedByNameItems(fromLegacy: seq<Obj>, fromUnified: seq<Obj>, i: int)
    requires 0 <= i < |fromLegacy|
    ensures MergedByName(fromLegacy, fromUnified)[i].name == fromLegacy[i].name
    ensures (forall j | 0 <= j < |fromUnified| :: fromUnified[j].name != fromLegacy[i].name) ==>
      MergedByName(fromLegacy, fromUnified)[i] == fromLegacy[i]
    ensures !(forall j | 0 <= j < |fromUnified| :: fromUnified[j].name != fromLegacy[i].name) ==>
      MergedByName(fromLegacy, fromUnified)[i] in fromUnified
  {
  }

  /** LastNamed picks the item of the highest index with its name. */
  lemma {:induction false} LastNamedIsLast(s: seq<Obj>, name: string) returns (i: int)
    requires LastNamed(s, name).Some?
    ensures 0 <= i < |s| && s[i] == LastNamed(s, name).value
    ensures forall j | i < j < |s| :: s[j].name != name
  {
    if s[|s| - 1].name == name {
      i := |s| - 1;
    } else {
      i := LastNamedIsLast(s[..|s| - 1], name);
    }
  }

  /** List: the legacy list, with each item replaced by the unified item of the
      same name; the unified list only contributes replacements. */
  method List(d: DualWriter) returns (r: Result<ObjList, Error>, calls: seq<Call>)
    ensures !d.legacy.isLister ==> r == Failure(ListerMissing) && calls == []
    ensures d.legacy.isLister && d.legacy.list.Failure? ==>
      r == Failure(d.legacy.list.error) && calls == [ListCall(Legacy)]
    ensures d.legacy.isLister && d.legacy.list.Success? ==> calls == [ListCall(Legacy), ListCall(Unified)]
    ensures d.legacy.isLister && d.legacy.list.Success? && d.unified.list.Failure? ==>
      r == Failure(d.unified.list.error)
    ensures d.legacy.isLister && d.legacy.list.Success? && d.unified.list.Success? ==>
      var ll := d.legacy.list.value;
      r == Success(ll.(items := MergedByName(ll.items, d.unified.list.value.items)))
  {
    if !d.legacy.isLister {
      return Failure(ListerMissing), [];
    }
    calls := [ListCall(Legacy)];
    if d.legacy.list.Failure? {
      return Failure(d.legacy.list.error), calls;
    }
    var ll := d.legacy.list.value;
    calls := calls + [ListCall(Unified)];
    if d.unified.list.Failure? {
      return Failure(d.unified.list.error), calls;
    }
    var storageList := d.unified.list.value.items;
    var m := IndexNames(storageList);
    var legacyList := new Obj[|ll.items|](i requires 0 <= i < |ll.items| => ll.items[i]);
    assert legacyList[..] == ll.items;
    ReplaceByName(legacyList, storageList, m);
    r := Success(ll.(items := legacyList[..]));
  }

  /** The first loop of List: map each name of the unified list to its index,
      later items overwriting earlier ones. */
  method IndexNames(storageList: seq<Obj>) returns (m: map<string, int>)
    ensures m == IndexByName(storageList)
  {
    m := map[];
    for i := 0 to |storageList|
      invariant m == IndexByName(storageList[..i])
    {
      assert storageList[..i + 1][..i] == storageList[..i];
      m := m[storageList[i].name := i];
    }
    assert storageList[..|storageList|] == storageList;
  }

  /** The second loop of List: overwrite, in place, each legacy item that has a
      counterpart in the unified list. */
  method ReplaceByName(legacyList: array<Obj>, storageList: seq<Obj>, m: map<string, int>)
    requires m == IndexByName(storageList)
    modifies legacyList
    ensures legacyList[..] == MergedByName(old(legacyList[..]), storageList)
  {
    ghost var original := legacyList[..];
    for i := 0 to legacyList.Length
      invariant forall j | 0 <= j < i :: legacyList[j] == MergedItem(original[j], storageList)
      invariant forall j | i <= j < legacyList.Length :: legacyList[j] == original[j]
    {
      IndexByNameFindsLast(storageList, legacyList[i].name);
      if legacyList[i].name in m {
        // replace the legacy object by its counterpart in the unified store
        legacyList[i] := storageList[m[legacyList[i].name]];
      }
    }
    assert legacyList[..] == MergedByName(original, storageList);
  }
}
