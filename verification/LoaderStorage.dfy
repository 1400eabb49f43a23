/**
 The image storage of the loader: blobs, manifests and extracted directories, the download
 and extraction that fill it, and the cleanup that empties it. Every step is one filesystem
 call; removing a directory can stop half way.
 */
module LoaderStorage {

  type Sha = nat
  type Digest = nat

  datatype Option<T> = None | Some(value: T)

  datatype Manifest = Manifest(config: Digest, layers: seq<Digest>)

  /** A directory entry: a published name, `tmp-<uuid>`, or `removing-<uuid>`. */
  datatype Name = Final(key: nat) | Tmp(id: nat) | Removing(id: nat)

  /** An extracted directory: the complete image, or something less. */
  datatype Tree = Whole(sha: Sha) | Broken

  datatype Store = Store(blobs: set<Name>, images: map<Name, Manifest>, extracted: map<Name, Tree>)

  /** The image's directory is there under its final name and complete. */
  predicate Extracted(s: Store, sha: Sha) {
    Final(sha) in s.extracted && s.extracted[Final(sha)] == Whole(sha)
  }

  // ---------------------------------------------------------------- download and extraction

  /** `want` is the image to extract; the first install extracts whatever it downloaded. */
  datatype Job =
    | Pull(want: Option<Sha>)
    | Layers(want: Option<Sha>, tmp: nat, sha: Sha, m: Manifest, stored: nat)
    | Stream(want: Option<Sha>, tmp: nat, sha: Sha, m: Manifest, stored: nat, blobTmp: nat)
    | Probe(image: Sha)
    | ReadManifest(image: Sha, dir: nat)
    | Unpack(image: Sha, dir: nat, m: Manifest, unpacked: nat)
    | Built(image: Sha)

  datatype JobStep =
    | Fetch(tmpId: nat, gotSha: Sha, gotManifest: Manifest)
    | SkipLayer
    | BeginLayer(blobId: nat)
    | EndLayer
    | PublishManifest
    | FindExtracted
    | MakeDir(dirId: nat)
    | OpenManifest
    | UnpackLayer
    | PublishDir

  predicate JobEnabled(s: Store, j: Job, step: JobStep) {
    match step
    case Fetch(tmp, _, _) => j.Pull? && Tmp(tmp) !in s.images
    case SkipLayer => j.Layers? && j.stored < |j.m.layers| && Final(j.m.layers[j.stored]) in s.blobs
    case BeginLayer(id) =>
      j.Layers? && j.stored < |j.m.layers| && Final(j.m.layers[j.stored]) !in s.blobs && Tmp(id) !in s.blobs
    case EndLayer => j.Stream? && j.stored < |j.m.layers|
    case PublishManifest => j.Layers? && j.stored == |j.m.layers|
    case FindExtracted => j.Probe? && Final(j.image) in s.extracted
    case MakeDir(id) => j.Probe? && Final(j.image) !in s.extracted && Tmp(id) !in s.extracted
    case OpenManifest => j.ReadManifest? && Final(j.image) in s.images
    case UnpackLayer => j.Unpack? && j.unpacked < |j.m.layers| && Final(j.m.layers[j.unpacked]) in s.blobs
    case PublishDir => j.Unpack? && j.unpacked == |j.m.layers|
  }

  function JobNext(s: Store, j: Job, step: JobStep): (r: (Store, Job))
    requires JobEnabled(s, j, step)
  {
    match step
    case Fetch(tmp, sha, m) => (s.(images := s.images[Tmp(tmp) := m]), Layers(j.want, tmp, sha, m, 0))
    case SkipLayer => (s, Layers(j.want, j.tmp, j.sha, j.m, j.stored + 1))
    case BeginLayer(id) => (s.(blobs := s.blobs + {Tmp(id)}), Stream(j.want, j.tmp, j.sha, j.m, j.stored, id))
    case EndLayer =>
      (s.(blobs := s.blobs - {Tmp(j.blobTmp)} + {Final(j.m.layers[j.stored])}),
       Layers(j.want, j.tmp, j.sha, j.m, j.stored + 1))
    case PublishManifest =>
      (s.(images := (s.images - {Tmp(j.tmp)})[Final(j.sha) := j.m]),
       Probe(if j.want.Some? then j.want.value else j.sha))
    case FindExtracted => (s, Built(j.image))
    case MakeDir(id) => (s.(extracted := s.extracted[Tmp(id) := Broken]), ReadManifest(j.image, id))
    case OpenManifest => (s, Unpack(j.image, j.dir, s.images[Final(j.image)], 0))
    case UnpackLayer => (s, Unpack(j.image, j.dir, j.m, j.unpacked + 1))
    case PublishDir =>
      (s.(extracted := (s.extracted - {Tmp(j.dir)})[Final(j.image) := Whole(j.image)]), Built(j.image))
  }

  // ---------------------------------------------------------------- cleanup

  /** The phases of a cleanup that keeps one image; `refs` are the blobs its manifest names. */
  datatype Clean =
    | SweepTmp
    | RemoveDirs(refs: set<Digest>)
    | RemoveImages(refs: set<Digest>)
    | RemoveBlobs(refs: set<Digest>)
    | Cleaned

  datatype Place = Blobs | Images | Dirs

  datatype CleanStep =
    | MarkTmp(place: Place, id: nat)
    | BreakTmp(id: nat)
    | RemoveTmp(place: Place, id: nat)
    | CollectRefs
    | BreakDir(dir: Name)
    | RemoveDir(dir: Name)
    | DirsDone
    | RemoveImage(image: Name)
    | ImagesDone
    | RemoveBlob(blob: Name)
    | BlobsDone

  function Refs(m: Manifest): (r: set<Digest>) {
    {m.config} + (set d | d in m.layers)
  }

  function KeptRefs(s: Store, keep: Sha): (r: set<Digest>) {
    if Final(keep) in s.images then Refs(s.images[Final(keep)]) else {}
  }

  predicate Referenced(n: Name, refs: set<Digest>) {
    n.Final? && n.key in refs
  }

  predicate CleanEnabled(s: Store, keep: Sha, c: Clean, step: CleanStep) {
    match step
    case MarkTmp(place, id) =>
      c.SweepTmp? && (match place
                      case Blobs => Tmp(id) in s.blobs
                      case Images => Tmp(id) in s.images
                      case Dirs => Tmp(id) in s.extracted)
    case BreakTmp(id) => c.SweepTmp? && Removing(id) in s.extracted
    case RemoveTmp(_, _) => c.SweepTmp?
    case CollectRefs => c.SweepTmp?
    case BreakDir(n) => c.RemoveDirs? && n in s.extracted && n != Final(keep)
    case RemoveDir(n) => c.RemoveDirs? && n != Final(keep)
    case DirsDone => c.RemoveDirs? && s.extracted.Keys <= {Final(keep)}
    case RemoveImage(n) => c.RemoveImages? && n != Final(keep)
    case ImagesDone => c.RemoveImages? && s.images.Keys <= {Final(keep)}
    case RemoveBlob(n) => c.RemoveBlobs? && !Referenced(n, c.refs)
    case BlobsDone => c.RemoveBlobs? && forall n :: n in s.blobs ==> Referenced(n, c.refs)
  }

  function CleanNext(s: Store, keep: Sha, c: Clean, step: CleanStep): (r: (Store, Clean))
    requires CleanEnabled(s, keep, c, step)
  {
    match step
    case MarkTmp(Blobs, id) => (s.(blobs := s.blobs - {Tmp(id)} + {Removing(id)}), c)
    case MarkTmp(Images, id) => (s.(images := (s.images - {Tmp(id)})[Removing(id) := s.images[Tmp(id)]]), c)
    case MarkTmp(Dirs, id) => (s.(extracted := (s.extracted - {Tmp(id)})[Removing(id) := s.extracted[Tmp(id)]]), c)
    case BreakTmp(id) => (s.(extracted := s.extracted[Removing(id) := Broken]), c)
    case RemoveTmp(Blobs, id) => (s.(blobs := s.blobs - {Removing(id)}), c)
    case RemoveTmp(Images, id) => (s.(images := s.images - {Removing(id)}), c)
    case RemoveTmp(Dirs, id) => (s.(extracted := s.extracted - {Removing(id)}), c)
    case CollectRefs => (s, RemoveDirs(KeptRefs(s, keep)))
    case BreakDir(n) => (s.(extracted := s.extracted[n := Broken]), c)
    case RemoveDir(n) => (s.(extracted := s.extracted - {n}), c)
    case DirsDone => (s, RemoveImages(c.refs))
    case RemoveImage(n) => (s.(images := s.images - {n}), c)
    case ImagesDone => (s, RemoveBlobs(c.refs))
    case RemoveBlob(n) => (s.(blobs := s.blobs - {n}), c)
    case BlobsDone => (s, Cleaned)
  }

  // ---------------------------------------------------------------- invariants

  predicate LayersPresent(s: Store, m: Manifest, n: nat)
    requires n <= |m.layers|
  {
    forall i :: 0 <= i < n ==> Final(m.layers[i]) in s.blobs
  }

  /** Every manifest under its final name has all its layer blobs. */
  ghost predicate Consistent(s: Store) {
    forall x :: Final(x) in s.images ==> LayersPresent(s, s.images[Final(x)], |s.images[Final(x)].layers|)
  }

  /** Directories under a final name hold that image or are broken, never another image. */
  ghost predicate RightDirs(s: Store) {
    forall x :: Final(x) in s.extracted ==> s.extracted[Final(x)] in {Whole(x), Broken}
  }

  /** No broken directory has a final name. */
  ghost predicate NoBrokenFinals(s: Store) {
    forall x :: Final(x) in s.extracted ==> Extracted(s, x)
  }

  ghost predicate JobOk(s: Store, j: Job) {
    match j
    case Layers(_, _, _, m, stored) => stored <= |m.layers| && LayersPresent(s, m, stored)
    case Stream(_, _, _, m, stored, _) => stored < |m.layers| && LayersPresent(s, m, stored)
    case Unpack(_, _, m, unpacked) => unpacked <= |m.layers| && LayersPresent(s, m, |m.layers|)
    case Built(x) => Extracted(s, x)
    case _ => true
  }

  /** Every step of a download or extraction keeps the storage consistent and breaks no image. */
  lemma JobKeeps(s: Store, j: Job, step: JobStep)
    requires JobEnabled(s, j, step) && Consistent(s) && RightDirs(s) && NoBrokenFinals(s) && JobOk(s, j)
    ensures var (s', j') := JobNext(s, j, step);
            && Consistent(s') && RightDirs(s') && NoBrokenFinals(s') && JobOk(s', j')
            && (forall x :: Extracted(s, x) ==> Extracted(s', x))
  {
  }

  ghost predicate CleanOk(s: Store, keep: Sha, c: Clean) {
    match c
    case SweepTmp => true
    case RemoveDirs(refs) => refs == KeptRefs(s, keep)
    case RemoveImages(refs) => refs == KeptRefs(s, keep) && s.extracted.Keys <= {Final(keep)}
    case RemoveBlobs(refs) =>
      refs == KeptRefs(s, keep) && s.extracted.Keys <= {Final(keep)} && s.images.Keys <= {Final(keep)}
    case Cleaned =>
      && s.extracted.Keys <= {Final(keep)} && s.images.Keys <= {Final(keep)}
      && forall n :: n in s.blobs ==> Referenced(n, KeptRefs(s, keep))
  }

  /** What a cleanup leaves alone: the kept image, its manifest, and the blobs that it names. */
  ghost predicate KeepsImage(s: Store, s': Store, keep: Sha) {
    && (Final(keep) in s.extracted <==> Final(keep) in s'.extracted)
    && (Final(keep) in s.extracted ==> s'.extracted[Final(keep)] == s.extracted[Final(keep)])
    && (Final(keep) in s.images <==> Final(keep) in s'.images)
    && (Final(keep) in s.images ==> s'.images[Final(keep)] == s.images[Final(keep)])
    && (forall d :: d in KeptRefs(s, keep) ==> (Final(d) in s.blobs <==> Final(d) in s'.blobs))
  }

  /**
   Every step of a cleanup, wherever a crash may stop it, keeps every manifest's layers
   present and the kept image untouched.
   */
  lemma CleanKeeps(s: Store, keep: Sha, c: Clean, step: CleanStep)
    requires CleanEnabled(s, keep, c, step) && Consistent(s) && RightDirs(s) && CleanOk(s, keep, c)
    ensures var (s', c') := CleanNext(s, keep, c, step);
            Consistent(s') && RightDirs(s') && CleanOk(s', keep, c') && KeepsImage(s, s', keep)
  {
    var (s', c') := CleanNext(s, keep, c, step);
    if step.RemoveBlob? && Final(keep) in s.images {
      var m := s.images[Final(keep)];
      assert forall i :: 0 <= i < |m.layers| ==> m.layers[i] in Refs(m);
    }
    assert KeptRefs(s', keep) == KeptRefs(s, keep);
  }

  // ---------------------------------------------------------------- what a cleanup leaves

  predicate Kept(n: Name, keep: set<Sha>) {
    n.Final? && n.key in keep
  }

  /** The blobs named by the manifests of kept images. */
  function AllRefs(images: map<Name, Manifest>, keep: set<Sha>): (r: set<Digest>) {
    set x, d | x in keep && Final(x) in images && d in Refs(images[Final(x)]) :: d
  }

  /** Exactly the kept images, their directories, and the blobs their manifests name. */
  function CleanedStore(s: Store, keep: set<Sha>): (r: Store) {
    Store(set n | n in s.blobs && Referenced(n, AllRefs(s.images, keep)),
          map n | n in s.images && Kept(n, keep) :: s.images[n],
          map n | n in s.extracted && Kept(n, keep) :: s.extracted[n])
  }

  lemma KeepsImageTransitive(a: Store, b: Store, c: Store, keep: Sha)
    requires KeepsImage(a, b, keep) && KeepsImage(b, c, keep)
    ensures KeepsImage(a, c, keep)
  {
    assert KeptRefs(b, keep) == KeptRefs(a, keep);
  }

  /** A cleanup that has gone through all its phases ends in that store. */
  lemma CleanedIsExact(s: Store, s': Store, keep: Sha)
    requires KeepsImage(s, s', keep) && CleanOk(s', keep, Cleaned)
    ensures s' == CleanedStore(s, {keep})
  {
    var r := CleanedStore(s, {keep});
    assert KeptRefs(s', keep) == KeptRefs(s, keep);
    assert AllRefs(s.images, {keep}) == KeptRefs(s, keep);
    assert s'.blobs == r.blobs;
    assert s'.images == r.images;
    assert s'.extracted == r.extracted;
  }

  /** What that store is, name by name. */
  lemma CleanedSpelledOut(s: Store, keep: set<Sha>)
    ensures var r := CleanedStore(s, keep);
            && (forall n :: n in r.extracted <==> n in s.extracted && n.Final? && n.key in keep)
            && (forall n :: n in r.images <==> n in s.images && n.Final? && n.key in keep)
            && (forall n :: n in r.blobs <==>
                  n in s.blobs && n.Final? && exists x :: x in keep && Final(x) in s.images && Names(s.images[Final(x)], n.key))
  {
    var refs := AllRefs(s.images, keep);
    forall d
      ensures d in refs <==> exists x :: x in keep && Final(x) in s.images && Names(s.images[Final(x)], d)
    {
      if x :| x in keep && Final(x) in s.images && Names(s.images[Final(x)], d) {
        assert d in Refs(s.images[Final(x)]);
      }
    }
  }

  /** The manifest names the blob, as its configuration or as a layer. */
  predicate Names(m: Manifest, d: Digest) {
    d == m.config || d in m.layers
  }

  // ---------------------------------------------------------------- what a download and extraction leave

  /** The blobs of the first n layers. */
  function LayerBlobs(m: Manifest, n: nat): set<Name>
    requires n <= |m.layers|
  {
    set i | 0 <= i < n :: Final(m.layers[i])
  }

  /** The storage with the manifest of image sha and all its layers. */
  function Downloaded(s: Store, sha: Sha, m: Manifest): Store {
    s.(blobs := s.blobs + LayerBlobs(m, |m.layers|), images := s.images[Final(sha) := m])
  }

  /** Where a job can be that began on s and has fetched manifest m as image sha. */
  ghost predicate Progress(s: Store, now: Store, j: Job, sha: Sha, m: Manifest) {
    match j
    case Pull(_) => now == s
    case Layers(_, tmp, x, m', k) =>
      && x == sha && m' == m && k <= |m.layers| && Tmp(tmp) !in s.images
      && now == s.(blobs := s.blobs + LayerBlobs(m, k), images := s.images[Tmp(tmp) := m])
    case Stream(_, tmp, x, m', k, b) =>
      && x == sha && m' == m && k < |m.layers| && Tmp(tmp) !in s.images && Tmp(b) !in s.blobs
      && now == s.(blobs := s.blobs + LayerBlobs(m, k) + {Tmp(b)}, images := s.images[Tmp(tmp) := m])
    case Probe(_) => now == Downloaded(s, sha, m)
    case ReadManifest(x, dir) =>
      Tmp(dir) !in s.extracted && Final(x) !in s.extracted
      && now == Downloaded(s, sha, m).(extracted := s.extracted[Tmp(dir) := Broken])
    case Unpack(x, dir, _, _) =>
      Tmp(dir) !in s.extracted && Final(x) !in s.extracted
      && now == Downloaded(s, sha, m).(extracted := s.extracted[Tmp(dir) := Broken])
    case Built(x) =>
      now == Downloaded(s, sha, m).(extracted := if Final(x) in s.extracted then s.extracted else s.extracted[Final(x) := Whole(x)])
  }

  lemma OneMoreLayer(m: Manifest, n: nat)
    requires n < |m.layers|
    ensures LayerBlobs(m, n + 1) == LayerBlobs(m, n) + {Final(m.layers[n])}
  {
  }

  lemma RemoveAdded<T>(s: map<Name, T>, n: Name, v: T, k: Name, w: T)
    requires n !in s && n != k
    ensures (s[n := v] - {n})[k := w] == s[k := w]
  {
  }

  lemma ProgressStep(s: Store, now: Store, j: Job, sha: Sha, m: Manifest, step: JobStep)
    requires Progress(s, now, j, sha, m) && JobEnabled(now, j, step)
    requires step.Fetch? ==> step.gotSha == sha && step.gotManifest == m
    ensures var (now', j') := JobNext(now, j, step);
            Progress(s, now', j', sha, m)
  {
    match step
    case Fetch(_, _, _) => assert LayerBlobs(m, 0) == {};
    case SkipLayer => OneMoreLayer(m, j.stored);
    case BeginLayer(_) =>
    case EndLayer => OneMoreLayer(m, j.stored);
    case PublishManifest => RemoveAdded(s.images, Tmp(j.tmp), m, Final(sha), m);
    case FindExtracted =>
    case MakeDir(_) =>
    case OpenManifest =>
    case UnpackLayer =>
    case PublishDir => RemoveAdded(s.extracted, Tmp(j.dir), Broken, Final(j.image), Whole(j.image));
  }

  // ---------------------------------------------------------------- the loops

  function FinalsOf<T>(m: map<Name, T>): map<Name, T> {
    map n | n in m && n.Final? :: m[n]
  }

  function Restricted<T>(m: map<Name, T>, kept: set<Name>): map<Name, T> {
    map n | n in m && n in kept :: m[n]
  }

  function FinalNames(keys: set<nat>): set<Name> {
    set x | x in keys :: Final(x)
  }

  /** One directory of the storage, as the code lists, renames and deletes its entries. */
  class Directory<T> {
    var entries: map<Name, T>

    constructor (entries: map<Name, T>)
      ensures this.entries == entries
    {
      this.entries := entries;
    }

    /** `clean_tmp_in_dir`: first every `tmp-` entry is renamed, then every `removing-` entry is removed. */
    method CleanTmp()
      modifies this
      ensures entries == FinalsOf(old(entries))
    {
      var listing := set n | n in entries && n.Tmp?;
      while listing != {}
        invariant forall n :: n in entries && n.Tmp? ==> n in listing
        invariant forall n :: n in listing ==> n in entries && n.Tmp?
        invariant SameFinals(entries, old(entries))
      {
        var n :| n in listing;
        entries := (entries - {n})[Removing(n.id) := entries[n]];
        listing := listing - {n};
      }
      listing := set n | n in entries && n.Removing?;
      while listing != {}
        invariant forall n :: n in entries && !n.Final? ==> n in listing
        invariant forall n :: n in listing ==> n.Removing?
        invariant SameFinals(entries, old(entries))
      {
        var n :| n in listing;
        entries := entries - {n};
        listing := listing - {n};
      }
    }

    /** Deletes every entry that is not kept. */
    method RemoveExcept(kept: set<Name>)
      modifies this
      ensures entries == Restricted(old(entries), kept)
    {
      var listing := entries.Keys;
      while listing != {}
        invariant forall n :: n in entries ==> n in old(entries) && entries[n] == old(entries)[n]
        invariant forall n :: n in old(entries) && n in kept ==> n in entries
        invariant forall n :: n in entries && n !in kept ==> n in listing
      {
        var n :| n in listing;
        if n !in kept {
          entries := entries - {n};
        }
        listing := listing - {n};
      }
    }
  }

  ghost predicate SameFinals<T>(a: map<Name, T>, b: map<Name, T>) {
    forall n: Name :: n.Final? ==> (n in a <==> n in b) && (n in a ==> a[n] == b[n])
  }

  /** The store that three directories make up. */
  ghost function View(blobs: Directory<()>, images: Directory<Manifest>, extracted: Directory<Tree>): (s: Store)
    reads blobs, images, extracted
  {
    Store(blobs.entries.Keys, images.entries, extracted.entries)
  }

  /** The blobs that the kept images refer to. */
  method CollectReferences(images: map<Name, Manifest>, keep: set<Sha>) returns (refs: set<Digest>)
    ensures refs == AllRefs(images, keep)
  {
    refs := {};
    var todo := keep;
    while todo != {}
      invariant todo <= keep
      invariant refs == AllRefs(images, keep - todo)
    {
      var x :| x in todo;
      ghost var seen := keep - todo;
      todo := todo - {x};
      assert keep - todo == seen + {x};
      if Final(x) in images {
        refs := refs + Refs(images[Final(x)]);
      }
    }
    assert keep - {} == keep;
  }

  lemma RefsOfFinals(images: map<Name, Manifest>, keep: set<Sha>)
    ensures AllRefs(FinalsOf(images), keep) == AllRefs(images, keep)
  {
    var finals := FinalsOf(images);
    forall x | x in keep
      ensures Final(x) in finals <==> Final(x) in images
      ensures Final(x) in images ==> finals[Final(x)] == images[Final(x)]
    {
    }
    assert AllRefs(finals, keep) <= AllRefs(images, keep);
    assert AllRefs(images, keep) <= AllRefs(finals, keep);
  }

  /** `cleanup_storage`, run to its end. */
  method CleanupStorage(blobs: Directory<()>, images: Directory<Manifest>, extracted: Directory<Tree>, keep: set<Sha>)
    modifies blobs, images, extracted
    ensures View(blobs, images, extracted) == CleanedStore(old(View(blobs, images, extracted)), keep)
  {
    blobs.CleanTmp();
    images.CleanTmp();
    extracted.CleanTmp();
    var refs := CollectReferences(images.entries, keep);
    extracted.RemoveExcept(FinalNames(keep));
    images.RemoveExcept(FinalNames(keep));
    blobs.RemoveExcept(FinalNames(refs));
    PassesMakeCleaned(old(blobs.entries), old(images.entries), old(extracted.entries), keep);
  }

  /** The passes one after another give the store that a cleanup should leave. */
  lemma PassesMakeCleaned(blobs: map<Name, ()>, images: map<Name, Manifest>, extracted: map<Name, Tree>, keep: set<Sha>)
    ensures var refs := AllRefs(FinalsOf(images), keep);
            Store(Restricted(FinalsOf(blobs), FinalNames(refs)).Keys,
                  Restricted(FinalsOf(images), FinalNames(keep)),
                  Restricted(FinalsOf(extracted), FinalNames(keep)))
            == CleanedStore(Store(blobs.Keys, images, extracted), keep)
  {
    RefsOfFinals(images, keep);
    var goal := CleanedStore(Store(blobs.Keys, images, extracted), keep);
    assert Restricted(FinalsOf(blobs), FinalNames(AllRefs(images, keep))).Keys == goal.blobs;
    assert Restricted(FinalsOf(images), FinalNames(keep)) == goal.images;
    assert Restricted(FinalsOf(extracted), FinalNames(keep)) == goal.extracted;
  }
}
