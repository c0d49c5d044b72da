/**
 The object counts and the brief summary's retention (`observe`, src/model.rs; `summarize_brief` and
 `brief_renders`, src/container.rs).
 */
module BriefSummary {
  import opened Basics
  import opened Appearances
  import opened PartNames

  datatype Role =
    | DiskImage | ContiguousImage | DiscontiguousImage | Image | FileImage | FolderImage | FileSubStream
    | ImageStream | Map | BlockHashes | CaseInfo | TimeStamps | Volume | Other(name: string)
  {
    predicate IsImage() {
      DiskImage? || ContiguousImage? || DiscontiguousImage? || Image? || FileImage? || FolderImage?
    }
  }

  datatype Property = Property(name: string, value: string)

  /** `hashes` holds the predicate of each recorded hash. */
  datatype Object = Object(role: Role, types: seq<string>, size: Option<nat>, hashes: seq<string>,
                           properties: seq<Property>, resident: bool, reference: bool)

  predicate HasBitstreamHash(o: Object) {
    "hash" in o.hashes || "blockMapHash" in o.hashes
  }

  /** The part of an IRI after its last `#` or `/`. */
  function LocalName(iri: string): string {
    if iri == "" then ""
    else
      var last := iri[|iri| - 1];
      if last == '#' || last == '/' then "" else LocalName(iri[..|iri| - 1]) + [last]
  }

  predicate Declares(types: seq<string>, name: string) {
    exists i :: 0 <= i < |types| && LocalName(types[i]) == name
  }

  // ----- where a file's bytes are -----

  datatype Form = ZipSegment | SharedMap | OwnImageStream | InMetadata

  /** The forms the types and properties name; the indirect one counts only when no other is named. */
  function FormsNamed(o: Object): seq<Form> {
    var found :=
      (if Declares(o.types, "ZipSegment") || Declares(o.types, "zip_segment") then [ZipSegment] else [])
      + (if Declares(o.types, "Map") then [SharedMap] else [])
      + (if Declares(o.types, "ImageStream") then [OwnImageStream] else [])
      + (if o.resident then [InMetadata] else []);
    if o.reference && found == [] then [SharedMap] else found
  }

  /** The one form that holds the bytes; none when there is no content, or the forms named are not one. */
  function FormOf(o: Object): Option<Form> {
    if o.size.None? && o.hashes == [] then None
    else if |FormsNamed(o)| == 1 then Some(FormsNamed(o)[0])
    else None
  }

  // ----- counting -----

  predicate IsAny(o: Object) { true }
  predicate IsImageObject(o: Object) { o.role.IsImage() }
  predicate IsMap(o: Object) { o.role.Map? }
  predicate IsStream(o: Object) { o.role.ImageStream? }
  predicate IsFile(o: Object) { o.role.FileImage? }
  predicate IsFolder(o: Object) { o.role.FolderImage? }
  predicate IsSubStream(o: Object) { o.role.FileSubStream? }
  predicate IsCandidate(o: Object) { HasBitstreamHash(o) && (o.role.IsImage() || o.role.ImageStream?) }
  predicate IsZipped(o: Object) { o.role.FileImage? && FormOf(o) == Some(ZipSegment) }
  predicate IsMapped(o: Object) { o.role.FileImage? && FormOf(o) == Some(SharedMap) }
  predicate IsStreamed(o: Object) { o.role.FileImage? && FormOf(o) == Some(OwnImageStream) }
  predicate IsResident(o: Object) { o.role.FileImage? && FormOf(o) == Some(InMetadata) }
  predicate IsEmpty(o: Object) { o.role.FileImage? && FormOf(o) == None }

  function Tally(objects: seq<Object>, f: Object -> bool): nat {
    |Keep(objects, f)|
  }

  lemma TallySnoc(objects: seq<Object>, o: Object, f: Object -> bool)
    ensures Tally(objects + [o], f) == Tally(objects, f) + (if f(o) then 1 else 0)
  {
    KeepSnoc(objects, o, f);
  }

  lemma RoleTallies(objects: seq<Object>, o: Object)
    ensures var more := objects + [o];
      && Tally(more, IsAny) == Tally(objects, IsAny) + 1
      && Tally(more, IsImageObject) == Tally(objects, IsImageObject) + (if IsImageObject(o) then 1 else 0)
      && Tally(more, IsMap) == Tally(objects, IsMap) + (if IsMap(o) then 1 else 0)
      && Tally(more, IsStream) == Tally(objects, IsStream) + (if IsStream(o) then 1 else 0)
      && Tally(more, IsFile) == Tally(objects, IsFile) + (if IsFile(o) then 1 else 0)
      && Tally(more, IsFolder) == Tally(objects, IsFolder) + (if IsFolder(o) then 1 else 0)
      && Tally(more, IsSubStream) == Tally(objects, IsSubStream) + (if IsSubStream(o) then 1 else 0)
      && Tally(more, IsCandidate) == Tally(objects, IsCandidate) + (if IsCandidate(o) then 1 else 0)
  {
    TallySnoc(objects, o, IsAny);
    TallySnoc(objects, o, IsImageObject);
    TallySnoc(objects, o, IsMap);
    TallySnoc(objects, o, IsStream);
    TallySnoc(objects, o, IsFile);
    TallySnoc(objects, o, IsFolder);
    TallySnoc(objects, o, IsSubStream);
    TallySnoc(objects, o, IsCandidate);
  }

  lemma StorageTallies(objects: seq<Object>, o: Object)
    ensures var more := objects + [o];
      && Tally(more, IsZipped) == Tally(objects, IsZipped) + (if IsZipped(o) then 1 else 0)
      && Tally(more, IsMapped) == Tally(objects, IsMapped) + (if IsMapped(o) then 1 else 0)
      && Tally(more, IsStreamed) == Tally(objects, IsStreamed) + (if IsStreamed(o) then 1 else 0)
      && Tally(more, IsResident) == Tally(objects, IsResident) + (if IsResident(o) then 1 else 0)
      && Tally(more, IsEmpty) == Tally(objects, IsEmpty) + (if IsEmpty(o) then 1 else 0)
  {
    TallySnoc(objects, o, IsZipped);
    TallySnoc(objects, o, IsMapped);
    TallySnoc(objects, o, IsStreamed);
    TallySnoc(objects, o, IsResident);
    TallySnoc(objects, o, IsEmpty);
  }

  class ObjectCounts {
    var total: nat
    var images: nat
    var maps: nat
    var imageStreams: nat
    var files: nat
    var folders: nat
    var fileSubstreams: nat
    var bitstreamCandidates: nat
    var zipSegment: nat
    var sharedMap: nat
    var ownStream: nat
    var inMetadata: nat
    var noContent: nat

    constructor ()
      ensures Roles([]) && Storage([])
    {
      total, images, maps, imageStreams, files, folders := 0, 0, 0, 0, 0, 0;
      fileSubstreams, bitstreamCandidates := 0, 0;
      zipSegment, sharedMap, ownStream, inMetadata, noContent := 0, 0, 0, 0, 0;
    }

    /** The role counters are those of the objects seen. */
    ghost predicate Roles(objects: seq<Object>)
      reads this
    {
      && total == Tally(objects, IsAny) && images == Tally(objects, IsImageObject)
      && maps == Tally(objects, IsMap) && imageStreams == Tally(objects, IsStream)
      && files == Tally(objects, IsFile) && folders == Tally(objects, IsFolder)
      && fileSubstreams == Tally(objects, IsSubStream) && bitstreamCandidates == Tally(objects, IsCandidate)
    }

    /** The storage counters are those of the files seen. */
    ghost predicate Storage(objects: seq<Object>)
      reads this
    {
      && zipSegment == Tally(objects, IsZipped) && sharedMap == Tally(objects, IsMapped)
      && ownStream == Tally(objects, IsStreamed) && inMetadata == Tally(objects, IsResident)
      && noContent == Tally(objects, IsEmpty)
    }

    function StorageTotal(): nat
      reads this
    {
      zipSegment + sharedMap + ownStream + inMetadata + noContent
    }

    method ObserveRole(role: Role)
      modifies `maps, `imageStreams, `files, `folders, `fileSubstreams
      ensures maps == old(maps) + (if role.Map? then 1 else 0)
      ensures imageStreams == old(imageStreams) + (if role.ImageStream? then 1 else 0)
      ensures files == old(files) + (if role.FileImage? then 1 else 0)
      ensures folders == old(folders) + (if role.FolderImage? then 1 else 0)
      ensures fileSubstreams == old(fileSubstreams) + (if role.FileSubStream? then 1 else 0)
    {
      match role {
        case Map => maps := maps + 1;
        case ImageStream => imageStreams := imageStreams + 1;
        case FileImage => files := files + 1;
        case FolderImage => folders := folders + 1;
        case FileSubStream => fileSubstreams := fileSubstreams + 1;
        case _ =>
      }
    }

    method Observe(o: Object, ghost seen: seq<Object>)
      requires Roles(seen)
      modifies `total, `images, `maps, `imageStreams, `files, `folders, `fileSubstreams, `bitstreamCandidates
      ensures Roles(seen + [o])
    {
      RoleTallies(seen, o);
      total := total + 1;
      if o.role.IsImage() {
        images := images + 1;
      }
      if HasBitstreamHash(o) && (o.role.IsImage() || o.role.ImageStream?) {
        bitstreamCandidates := bitstreamCandidates + 1;
      }
      ObserveRole(o.role);
    }

    method ObserveStorage(o: Object, ghost seen: seq<Object>)
      requires Storage(seen)
      modifies `zipSegment, `sharedMap, `ownStream, `inMetadata, `noContent
      ensures Storage(seen + [o])
    {
      StorageTallies(seen, o);
      if o.role != FileImage {
        return;
      }
      match FormOf(o) {
        case Some(ZipSegment) => zipSegment := zipSegment + 1;
        case Some(SharedMap) => sharedMap := sharedMap + 1;
        case Some(OwnImageStream) => ownStream := ownStream + 1;
        case Some(InMetadata) => inMetadata := inMetadata + 1;
        case None => noContent := noContent + 1;
      }
    }

    /** `observe_object`: one entry point for both sets of counters. */
    method ObserveObject(o: Object, ghost seen: seq<Object>)
      requires Roles(seen) && Storage(seen)
      modifies this
      ensures Roles(seen + [o]) && Storage(seen + [o])
    {
      Observe(o, seen);
      ObserveStorage(o, seen);
    }
  }

  /** Every file is counted under exactly one storage form, or as having none. */
  lemma {:induction false} StorageTotalsFiles(objects: seq<Object>)
    ensures Tally(objects, IsZipped) + Tally(objects, IsMapped) + Tally(objects, IsStreamed)
      + Tally(objects, IsResident) + Tally(objects, IsEmpty) == Tally(objects, IsFile)
  {
    if objects != [] {
      StorageTotalsFiles(objects[..|objects| - 1]);
    }
  }

  // ----- what the brief report keeps -----

  const CANDIDATE_CAP: nat := 64

  const CASE_PREDICATES: seq<string> := ["caseNumber", "evidenceNumber", "examiner"]

  predicate IsImageTyped(o: Object) {
    o.role.IsImage() || o.role.Map? || o.role.ImageStream? || Declares(o.types, "Image") || Declares(o.types, "image")
  }

  predicate Names(p: Property, predicate_: string) {
    Lower(p.name) == Lower(predicate_)
  }

  predicate HasCaseField(o: Object) {
    exists i, c :: 0 <= i < |o.properties| && 0 <= c < 3 && Names(o.properties[i], CASE_PREDICATES[c])
  }

  predicate Novel(o: Object, seen: set<string>) {
    exists i :: 0 <= i < |o.types| && o.types[i] !in seen
  }

  /** What a pass over the objects has kept: the objects, how many of them have a hash, and the types shown. */
  datatype Kept = Kept(objects: seq<Object>, candidates: nat, seen: set<string>)

  predicate Renders(k: Kept, o: Object) {
    if IsImageTyped(o) then Novel(o, k.seen) || (HasBitstreamHash(o) && k.candidates < CANDIDATE_CAP)
    else HasCaseField(o)
  }

  function KeepNext(k: Kept, o: Object): Kept {
    var seen := if IsImageTyped(o) then k.seen + ToSet(o.types) else k.seen;
    if Renders(k, o) then
      Kept(k.objects + [o], k.candidates + (if HasBitstreamHash(o) then 1 else 0), seen)
    else k
  }

  function Brief(objects: seq<Object>): Kept {
    if objects == [] then Kept([], 0, {}) else KeepNext(Brief(objects[..|objects| - 1]), objects[|objects| - 1])
  }

  /** `brief_renders`: whether to keep the object, and the types shown from then on. */
  method BriefRenders(o: Object, candidates: nat, seen0: set<string>) returns (keep: bool, seen: set<string>)
    ensures forall kept: seq<Object> :: keep == Renders(Kept(kept, candidates, seen0), o)
    ensures seen == if keep && IsImageTyped(o) then seen0 + ToSet(o.types) else seen0
  {
    seen := seen0;
    if IsImageTyped(o) {
      if Novel(o, seen0) {
        var i := 0;
        assert o.types[..0] == [];
        while i < |o.types|
          invariant 0 <= i <= |o.types|
          invariant seen == seen0 + ToSet(o.types[..i])
        {
          assert o.types[..i + 1] == o.types[..i] + [o.types[i]];
          seen := seen + {o.types[i]};
          i := i + 1;
        }
        assert o.types[..|o.types|] == o.types;
        return true, seen;
      }
      assert ToSet(o.types) <= seen0;
      keep := HasBitstreamHash(o) && candidates < CANDIDATE_CAP;
    } else {
      keep := HasCaseField(o);
    }
  }

  /** The brief pass counts every object as the full pass does, and keeps what the report can show. */
  method SummarizeBrief(objects: seq<Object>) returns (kept: seq<Object>, counts: ObjectCounts)
    ensures kept == Brief(objects).objects
    ensures fresh(counts) && counts.Roles(objects) && counts.Storage(objects)
    ensures counts.StorageTotal() == counts.files
  {
    counts := new ObjectCounts();
    kept := [];
    var candidates, seen: set<string> := 0, {};
    assert objects[..0] == [];
    for i := 0 to |objects|
      invariant fresh(counts) && counts.Roles(objects[..i]) && counts.Storage(objects[..i])
      invariant Brief(objects[..i]) == Kept(kept, candidates, seen)
    {
      var o := objects[i];
      BriefSnoc(objects, i);
      counts.ObserveObject(o, objects[..i]);
      var keep;
      keep, seen := BriefRenders(o, candidates, seen);
      if keep {
        if HasBitstreamHash(o) {
          candidates := candidates + 1;
        }
        kept := kept + [o];
      }
    }
    assert objects[..|objects|] == objects;
    StorageTotalsFiles(objects);
  }

  lemma BriefSnoc(objects: seq<Object>, i: nat)
    requires i < |objects|
    ensures objects[..i + 1] == objects[..i] + [objects[i]]
    ensures Brief(objects[..i + 1]) == KeepNext(Brief(objects[..i]), objects[i])
  {
    assert objects[..i + 1][..i] == objects[..i];
  }

  /** The full pass keeps every object and counts the same. */
  method Summarize(objects: seq<Object>) returns (kept: seq<Object>, counts: ObjectCounts)
    ensures kept == objects
    ensures fresh(counts) && counts.Roles(objects) && counts.Storage(objects)
  {
    counts := new ObjectCounts();
    kept := [];
    assert objects[..0] == [];
    for i := 0 to |objects|
      invariant fresh(counts) && counts.Roles(objects[..i]) && counts.Storage(objects[..i])
      invariant kept == objects[..i]
    {
      BriefSnoc(objects, i);
      counts.ObserveObject(objects[i], objects[..i]);
      kept := kept + [objects[i]];
    }
    assert objects[..|objects|] == objects;
  }

  // ----- no type is lost -----

  ghost predicate Shows(objects: seq<Object>, t: string) {
    exists i :: 0 <= i < |objects| && IsImageTyped(objects[i]) && t in objects[i].types
  }

  lemma ShowsMore(objects: seq<Object>, last: Object, t: string)
    ensures Shows(objects + [last], t) <==> Shows(objects, t) || (IsImageTyped(last) && t in last.types)
  {
    var longer := objects + [last];
    if i :| 0 <= i < |objects| && IsImageTyped(objects[i]) && t in objects[i].types {
      assert longer[i] == objects[i];
    }
    assert longer[|objects|] == last;
  }

  /** The types shown are those of the image-typed objects kept, and those of all image-typed objects. */
  lemma {:induction false} TypesComplete(objects: seq<Object>, t: string)
    ensures t in Brief(objects).seen <==> Shows(objects, t)
    ensures Shows(Brief(objects).objects, t) <==> Shows(objects, t)
  {
    if objects != [] {
      var shorter, last := objects[..|objects| - 1], objects[|objects| - 1];
      assert objects == shorter + [last];
      TypesComplete(shorter, t);
      ShowsMore(shorter, last, t);
      ShowsMore(Brief(shorter).objects, last, t);
    }
  }

  // ----- how much is kept -----

  predicate CarriesCase(o: Object) {
    !IsImageTyped(o) && HasCaseField(o)
  }

  /** What was kept: objects of a new type, hashed ones within the cap, and case carriers. */
  lemma {:induction false} KeptSplit(objects: seq<Object>) returns (novel: nat, capped: nat)
    ensures |Brief(objects).objects| == novel + capped + Tally(objects, CarriesCase)
    ensures novel <= |Brief(objects).seen| && capped <= Brief(objects).candidates && capped <= CANDIDATE_CAP
    ensures Brief(objects).candidates == Tally(Brief(objects).objects, HasBitstreamHash)
  {
    if objects == [] {
      novel, capped := 0, 0;
    } else {
      var shorter, last := objects[..|objects| - 1], objects[|objects| - 1];
      assert objects == shorter + [last];
      var k := Brief(shorter);
      novel, capped := KeptSplit(shorter);
      TallySnoc(shorter, last, CarriesCase);
      TallySnoc(k.objects, last, HasBitstreamHash);
      if IsImageTyped(last) && Novel(last, k.seen) {
        var i :| 0 <= i < |last.types| && last.types[i] !in k.seen;
        SeenGrows(k.seen, last.types, i);
        novel := novel + 1;
      } else if IsImageTyped(last) {
        assert ToSet(last.types) <= k.seen;
        assert k.seen + ToSet(last.types) == k.seen;
        if Renders(k, last) {
          capped := capped + 1;
        }
      }
    }
  }

  lemma SeenGrows(seen: set<string>, types: seq<string>, i: nat)
    requires i < |types| && types[i] !in seen
    ensures |seen + ToSet(types)| > |seen|
  {
    assert seen + {types[i]} <= seen + ToSet(types);
    SubsetSize(seen + {types[i]}, seen + ToSet(types));
  }

  /** The kept objects are bounded by the distinct image types, the cap, and the case carriers. */
  lemma RetentionBounded(objects: seq<Object>, imageTypes: set<string>)
    requires forall t :: Shows(objects, t) ==> t in imageTypes
    ensures |Brief(objects).objects| <= |imageTypes| + CANDIDATE_CAP + Tally(objects, CarriesCase)
  {
    var novel, capped := KeptSplit(objects);
    forall t | t in Brief(objects).seen
      ensures t in imageTypes
    {
      TypesComplete(objects, t);
    }
    SubsetSize(Brief(objects).seen, imageTypes);
  }

  predicate IsHashedImage(o: Object) {
    IsImageTyped(o) && HasBitstreamHash(o)
  }

  /** Hashed images are dropped only once the cap is filled, so the report never runs short of them. */
  lemma {:induction false} CandidatesSuffice(objects: seq<Object>)
    ensures Brief(objects).candidates >= Min(CANDIDATE_CAP, Tally(objects, IsHashedImage))
  {
    if objects != [] {
      var shorter, last := objects[..|objects| - 1], objects[|objects| - 1];
      assert objects == shorter + [last];
      CandidatesSuffice(shorter);
      TallySnoc(shorter, last, IsHashedImage);
    }
  }

  // ----- the case line -----

  /** The first value recorded under a predicate, as the case line reads it. */
  function FieldOf(properties: seq<Property>, predicate_: string): Option<string> {
    if properties == [] then None
    else if Names(properties[0], predicate_) then Some(properties[0].value)
    else FieldOf(properties[1..], predicate_)
  }

  function CaseField(objects: seq<Object>, predicate_: string): Option<string> {
    if objects == [] then None
    else
      var earlier := CaseField(objects[..|objects| - 1], predicate_);
      if earlier.Some? then earlier else FieldOf(objects[|objects| - 1].properties, predicate_)
  }

  lemma {:induction false} FieldIsCaseField(properties: seq<Property>, c: nat)
    requires c < 3 && FieldOf(properties, CASE_PREDICATES[c]).Some?
    ensures exists i :: 0 <= i < |properties| && Names(properties[i], CASE_PREDICATES[c])
  {
    if !Names(properties[0], CASE_PREDICATES[c]) {
      FieldIsCaseField(properties[1..], c);
      var i :| 0 <= i < |properties[1..]| && Names(properties[1..][i], CASE_PREDICATES[c]);
      assert Names(properties[i + 1], CASE_PREDICATES[c]);
    }
  }

  /** What the brief pass decides of the `i`-th object. */
  predicate IsKept(objects: seq<Object>, i: nat)
    requires i < |objects|
  {
    Renders(Brief(objects[..i]), objects[i])
  }

  /**
   A case carrier is kept exactly when it is not image-typed, or declares a type no image-typed object before
   it declares, or has a hash while the cap is not filled.
   */
  lemma CarrierKeptExactlyWhen(objects: seq<Object>, i: nat)
    requires i < |objects| && HasCaseField(objects[i])
    ensures IsKept(objects, i) <==>
            || !IsImageTyped(objects[i])
            || (exists t :: t in objects[i].types && !Shows(objects[..i], t))
            || (HasBitstreamHash(objects[i]) && Brief(objects[..i]).candidates < CANDIDATE_CAP)
  {
    forall t | t in objects[i].types
      ensures t in Brief(objects[..i]).seen <==> Shows(objects[..i], t)
    {
      TypesComplete(objects[..i], t);
    }
    if t :| t in objects[i].types && !Shows(objects[..i], t) {
      var k :| 0 <= k < |objects[i].types| && objects[i].types[k] == t;
      assert objects[i].types[k] !in Brief(objects[..i]).seen;
    }
  }

  predicate Carries(o: Object, predicate_: string) {
    FieldOf(o.properties, predicate_).Some?
  }

  /** The first object to record the predicate. */
  predicate FirstCarrier(objects: seq<Object>, predicate_: string, i: nat) {
    i < |objects| && Carries(objects[i], predicate_) && forall k | 0 <= k < i :: !Carries(objects[k], predicate_)
  }

  /** The first one to record it that the brief pass keeps. */
  predicate FirstKeptCarrier(objects: seq<Object>, predicate_: string, j: nat) {
    && j < |objects| && Carries(objects[j], predicate_) && IsKept(objects, j)
    && forall k | 0 <= k < j :: !(Carries(objects[k], predicate_) && IsKept(objects, k))
  }

  /** A field read from all objects is the first carrier's. */
  lemma {:induction false} FieldOfFirst(objects: seq<Object>, predicate_: string, i: nat)
    requires FirstCarrier(objects, predicate_, i)
    ensures CaseField(objects, predicate_) == FieldOf(objects[i].properties, predicate_)
  {
    var n := |objects| - 1;
    if i < n {
      FieldOfFirst(objects[..n], predicate_, i);
    } else if CaseField(objects[..n], predicate_).Some? {
      var k := FirstExists(objects[..n], predicate_);
      assert false;
    }
  }

  lemma {:induction false} FirstExists(objects: seq<Object>, predicate_: string) returns (i: nat)
    requires CaseField(objects, predicate_).Some?
    ensures FirstCarrier(objects, predicate_, i)
  {
    i := |objects| - 1;
    if k :| 0 <= k < i && Carries(objects[k], predicate_) {
      SomeCarrier(objects[..i], predicate_, k);
      i := FirstExists(objects[..i], predicate_);
    } else if CaseField(objects[..i], predicate_).Some? {
      i := FirstExists(objects[..i], predicate_);
    }
  }

  lemma {:induction false} SomeCarrier(objects: seq<Object>, predicate_: string, k: nat)
    requires k < |objects| && Carries(objects[k], predicate_)
    ensures CaseField(objects, predicate_).Some?
  {
    if k < |objects| - 1 {
      SomeCarrier(objects[..|objects| - 1], predicate_, k);
    }
  }

  /** The brief field after one more object. */
  lemma BriefFieldNext(objects: seq<Object>, predicate_: string)
    requires objects != []
    ensures var n := |objects| - 1;
            var earlier := CaseField(Brief(objects[..n]).objects, predicate_);
            CaseField(Brief(objects).objects, predicate_) ==
            if earlier.Some? then earlier
            else if IsKept(objects, n) then FieldOf(objects[n].properties, predicate_) else None
  {
    var k, last := Brief(objects[..|objects| - 1]), objects[|objects| - 1];
    assert (k.objects + [last])[..|k.objects|] == k.objects;
  }

  lemma KeptInShorter(objects: seq<Object>, n: nat, j: nat)
    requires j < n <= |objects|
    ensures IsKept(objects[..n], j) == IsKept(objects, j)
  {
    assert objects[..n][..j] == objects[..j];
  }

  lemma {:induction false} SomeKeptCarrier(objects: seq<Object>, predicate_: string, k: nat)
    requires k < |objects| && Carries(objects[k], predicate_) && IsKept(objects, k)
    ensures CaseField(Brief(objects).objects, predicate_).Some?
  {
    BriefFieldNext(objects, predicate_);
    if k < |objects| - 1 {
      KeptInShorter(objects, |objects| - 1, k);
      SomeKeptCarrier(objects[..|objects| - 1], predicate_, k);
    }
  }

  lemma {:induction false} FirstKeptExists(objects: seq<Object>, predicate_: string) returns (j: nat)
    requires CaseField(Brief(objects).objects, predicate_).Some?
    ensures FirstKeptCarrier(objects, predicate_, j)
  {
    var n := |objects| - 1;
    BriefFieldNext(objects, predicate_);
    if CaseField(Brief(objects[..n]).objects, predicate_).Some? {
      j := FirstKeptExists(objects[..n], predicate_);
      forall k | 0 <= k <= j
        ensures IsKept(objects[..n], k) == IsKept(objects, k)
      {
        KeptInShorter(objects, n, k);
      }
    } else {
      j := n;
      forall k | 0 <= k < n
        ensures !(Carries(objects[k], predicate_) && IsKept(objects, k))
      {
        KeptInShorter(objects, n, k);
        if Carries(objects[k], predicate_) && IsKept(objects, k) {
          SomeKeptCarrier(objects[..n], predicate_, k);
        }
      }
    }
  }

  /** The brief field is that of the first carrier kept. */
  lemma {:induction false} BriefFieldOfFirst(objects: seq<Object>, predicate_: string, j: nat)
    requires FirstKeptCarrier(objects, predicate_, j)
    ensures CaseField(Brief(objects).objects, predicate_) == FieldOf(objects[j].properties, predicate_)
  {
    var n := |objects| - 1;
    BriefFieldNext(objects, predicate_);
    if j < n {
      forall k | 0 <= k <= j
        ensures IsKept(objects[..n], k) == IsKept(objects, k)
      {
        KeptInShorter(objects, n, k);
      }
      BriefFieldOfFirst(objects[..n], predicate_, j);
    } else if CaseField(Brief(objects[..n]).objects, predicate_).Some? {
      var k := FirstKeptExists(objects[..n], predicate_);
      KeptInShorter(objects, n, k);
      assert false;
    }
  }

  /** Some carrier is kept, and the first kept records what the first of all records. */
  ghost predicate FieldSurvives(objects: seq<Object>, predicate_: string) {
    forall i: nat :: FirstCarrier(objects, predicate_, i) ==>
      exists j: nat :: FirstKeptCarrier(objects, predicate_, j)
                  && FieldOf(objects[j].properties, predicate_) == FieldOf(objects[i].properties, predicate_)
  }

  /** The brief report shows the same value of a field exactly when the first carrier kept records the first carrier's. */
  lemma FieldKeptExactlyWhen(objects: seq<Object>, predicate_: string)
    ensures CaseField(Brief(objects).objects, predicate_) == CaseField(objects, predicate_) <==>
            FieldSurvives(objects, predicate_)
    ensures CaseField(Brief(objects).objects, predicate_).Some? ==> CaseField(objects, predicate_).Some?
  {
    var brief, full := CaseField(Brief(objects).objects, predicate_), CaseField(objects, predicate_);
    if full.Some? {
      var i := FirstExists(objects, predicate_);
      FieldOfFirst(objects, predicate_, i);
    }
    if brief.Some? {
      var j := FirstKeptExists(objects, predicate_);
      BriefFieldOfFirst(objects, predicate_, j);
      SomeCarrier(objects, predicate_, j);
    }
    forall i: nat, j: nat | FirstCarrier(objects, predicate_, i) && FirstKeptCarrier(objects, predicate_, j)
      ensures full == FieldOf(objects[i].properties, predicate_) && brief == FieldOf(objects[j].properties, predicate_)
    {
      FieldOfFirst(objects, predicate_, i);
      BriefFieldOfFirst(objects, predicate_, j);
    }
    forall i: nat | FirstCarrier(objects, predicate_, i)
      ensures full.Some?
    {
      SomeCarrier(objects, predicate_, i);
    }
  }

  /** In particular the field survives when every object that carries it is not image-typed. */
  lemma CaseLineKept(objects: seq<Object>, c: nat)
    requires c < 3
    requires forall o :: o in objects && Carries(o, CASE_PREDICATES[c]) ==> !IsImageTyped(o)
    ensures CaseField(Brief(objects).objects, CASE_PREDICATES[c]) == CaseField(objects, CASE_PREDICATES[c])
  {
    forall i: nat | FirstCarrier(objects, CASE_PREDICATES[c], i)
      ensures FirstKeptCarrier(objects, CASE_PREDICATES[c], i)
    {
      FieldIsCaseField(objects[i].properties, c);
      CarrierKeptExactlyWhen(objects, i);
    }
    FieldKeptExactlyWhen(objects, CASE_PREDICATES[c]);
  }

  /** The values of the case line, of the predicates from the `c`-th on. */
  function CaseLine(objects: seq<Object>, c: nat): seq<string>
    requires c <= 3
    decreases 3 - c
  {
    if c == 3 then []
    else
      var field := CaseField(objects, CASE_PREDICATES[c]);
      (if field.Some? then [field.value] else []) + CaseLine(objects, c + 1)
  }

  /** Two lines, each one value ahead of the rest or not. */
  lemma LinesEqual(a: Option<string>, b: Option<string>, restA: seq<string>, restB: seq<string>)
    requires a.Some? ==> b.Some?
    requires |restA| <= |restB|
    ensures var lineA, lineB := (if a.Some? then [a.value] else []) + restA, (if b.Some? then [b.value] else []) + restB;
            |lineA| <= |lineB| && (lineA == lineB <==> a == b && restA == restB)
  {
    var lineA, lineB := (if a.Some? then [a.value] else []) + restA, (if b.Some? then [b.value] else []) + restB;
    assert [] + restA == restA && [] + restB == restB;
    if lineA == lineB && b.Some? {
      assert |lineA| == |lineB|;
      assert a.Some?;
      assert lineA[0] == lineB[0] && lineA[1..] == restA && lineB[1..] == restB;
    }
  }

  /** A brief line holds no more values, and the same ones exactly when each field is the same. */
  lemma {:induction false} LineByField(objects: seq<Object>, c: nat)
    requires c <= 3
    ensures |CaseLine(Brief(objects).objects, c)| <= |CaseLine(objects, c)|
    ensures CaseLine(Brief(objects).objects, c) == CaseLine(objects, c) <==>
            forall d :: c <= d < 3 ==> FieldSurvives(objects, CASE_PREDICATES[d])
    decreases 3 - c
  {
    if c < 3 {
      LineByField(objects, c + 1);
      FieldKeptExactlyWhen(objects, CASE_PREDICATES[c]);
      var kept := Brief(objects).objects;
      LinesEqual(CaseField(kept, CASE_PREDICATES[c]), CaseField(objects, CASE_PREDICATES[c]),
                 CaseLine(kept, c + 1), CaseLine(objects, c + 1));
    }
  }

  /**
   The brief case line holds the values of the full one exactly when, for each of the three predicates, the
   first carrier kept records what the first carrier does.
   */
  lemma CaseLineKeptExactlyWhen(objects: seq<Object>)
    ensures CaseLine(Brief(objects).objects, 0) == CaseLine(objects, 0) <==>
            forall c :: 0 <= c < 3 ==> FieldSurvives(objects, CASE_PREDICATES[c])
  {
    LineByField(objects, 0);
  }

  /**
   An image-typed object's case field can be lost, although case carriers are documented as kept
   (src/container.rs, on `brief_renders`): a second image of a type already shown, without a hash.
   */
  lemma CaseFieldLost(first: Object, second: Object, number: string)
    requires IsImageTyped(first) && first.types != [] && first.properties == []
    requires IsImageTyped(second) && second.types == first.types && !HasBitstreamHash(second)
    requires second.properties == [Property("caseNumber", number)]
    ensures CaseField([first, second], "caseNumber") == Some(number)
    ensures CaseField(Brief([first, second]).objects, "caseNumber") == None
  {
    assert [first, second][..1] == [first] && [first][..0] == [];
    var none: set<string> := {};
    assert first.types[0] !in none;
    assert Novel(first, none);
    assert Brief([first]) == KeepNext(Kept([], 0, none), first);
    var k := Brief([first]);
    assert k.objects == [first] && k.seen == none + ToSet(first.types);
    assert !Novel(second, k.seen) && !Renders(k, second);
    assert Brief([first, second]) == k;
    assert CaseField([first], "caseNumber") == None;
    assert FieldOf(second.properties, "caseNumber") == Some(number);
  }
}
