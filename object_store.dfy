/** The R2 bucket as the sync tool sees it: `headObject` answers and
    `upload` requests. The bucket is a finite map from key to content type;
    every upload request is logged. The service's failures are fixed oracles:
    the keys whose HEAD request fails with a status other than 404, and the
    keys whose upload fails. */
module ObjectStore {
  import opened Wrappers
  import MediaPaths

  const PublicRead := "public-read"

  /** One `upload` request: key, content type, ACL, and whether it succeeded. */
  datatype PutRecord = PutRecord(key: string, contentType: string, acl: string, ok: bool)

  /** The bucket as a value: the stored objects and the log of upload requests. */
  datatype Store = Store(objects: map<string, string>, puts: seq<PutRecord>)

  /** The service's fixed behaviour: HEAD failures per key, keys whose
      upload fails, and the prefix of the `Location` an upload returns. */
  datatype Service = Service(headFaults: map<string, nat>, rejected: set<string>, location: string)

  /** HEAD failures other than "not found": a 404 comes only from absence. */
  ghost predicate ValidService(svc: Service) {
    forall k :: k in svc.headFaults ==> svc.headFaults[k] != 404
  }

  /** The answer to `headObject`. */
  datatype HeadResponse = Found | HttpError(status: nat)

  function Head(objects: map<string, string>, svc: Service, key: string): HeadResponse {
    if key in svc.headFaults then HttpError(svc.headFaults[key])
    else if key in objects then Found
    else HttpError(404)
  }

  /** `fileExistsInR2`: true when HEAD succeeds, false when it fails with 404,
      and any other failure is rethrown (here: returned) to the caller. */
  function FileExists(resp: HeadResponse): (r: Result<bool, nat>)
    ensures r == Success(true) <==> resp == Found
    ensures r == Success(false) <==> resp == HttpError(404)
    ensures r.Failure? <==> resp.HttpError? && resp.status != 404
    ensures r.Failure? ==> r.error == resp.status
  {
    match resp
    case Found => Success(true)
    case HttpError(status) => if status == 404 then Success(false) else Failure(status)
  }

  /** Under a valid service, "does not exist" means the key is absent and
      HEAD does not fail for it. */
  lemma NotFoundMeansAbsent(objects: map<string, string>, svc: Service, key: string)
    requires ValidService(svc)
    ensures FileExists(Head(objects, svc, key)) == Success(false) <==> key !in svc.headFaults && key !in objects
    ensures FileExists(Head(objects, svc, key)).Failure? <==> key in svc.headFaults
  {
  }

  /** `uploadToR2`: a public-read upload with the content type of the key;
      on success the object is stored and its location returned. */
  function Put(s: Store, svc: Service, key: string): (Option<string>, Store) {
    var ct := MediaPaths.ContentType(key);
    var ok := key !in svc.rejected;
    var puts := s.puts + [PutRecord(key, ct, PublicRead, ok)];
    if ok then (Some(svc.location + "/" + key), Store(s.objects[key := ct], puts))
    else (None, Store(s.objects, puts))
  }

  // ---------------------------------------------------------------------------
  // How a run changes the bucket

  /** `s1` is `s0` after requests that were each made only for a key absent
      from the bucket at the time: the log only grows, no object disappears,
      no request touched a key already in `s0`, every successful request left
      its object stored, and after a successful request no further request
      for that key was made. */
  ghost predicate Extends(s0: Store, s1: Store) {
    && |s0.puts| <= |s1.puts| && s1.puts[..|s0.puts|] == s0.puts
    && s0.objects.Keys <= s1.objects.Keys
    && (forall i :: |s0.puts| <= i < |s1.puts| ==> s1.puts[i].key !in s0.objects)
    && (forall i :: |s0.puts| <= i < |s1.puts| && s1.puts[i].ok ==> s1.puts[i].key in s1.objects)
    && (forall i, j :: |s0.puts| <= i < j < |s1.puts| && s1.puts[i].ok ==> s1.puts[j].key != s1.puts[i].key)
  }

  lemma ExtendsRefl(s: Store)
    ensures Extends(s, s)
  {
    assert s.puts[..|s.puts|] == s.puts;
  }

  lemma ExtendsTrans(a: Store, b: Store, c: Store)
    requires Extends(a, b) && Extends(b, c)
    ensures Extends(a, c)
  {
    assert c.puts[..|a.puts|] == c.puts[..|b.puts|][..|a.puts|];
    forall i | |a.puts| <= i < |b.puts|
      ensures c.puts[i] == b.puts[i]
    {
      assert c.puts[i] == c.puts[..|b.puts|][i];
    }
  }

  /** An upload of an absent key extends the bucket. */
  lemma PutExtends(s: Store, svc: Service, key: string)
    requires key !in s.objects
    ensures Extends(s, Put(s, svc, key).1)
  {
    var s1 := Put(s, svc, key).1;
    assert s1.puts[..|s.puts|] == s.puts;
  }

  /** The bucket-level promise of a run: at most one successful upload per
      key, never one for a key that was already there, and each of them
      stored. */
  lemma AtMostOneSuccessfulPut(s0: Store, s1: Store)
    requires Extends(s0, s1)
    ensures forall i, j :: |s0.puts| <= i < j < |s1.puts| && s1.puts[i].ok && s1.puts[j].ok ==>
              s1.puts[i].key != s1.puts[j].key
    ensures forall i :: |s0.puts| <= i < |s1.puts| ==> s1.puts[i].key !in s0.objects
    ensures forall i :: |s0.puts| <= i < |s1.puts| && s1.puts[i].ok ==> s1.puts[i].key in s1.objects
  {
  }

  // ---------------------------------------------------------------------------
  // The bucket as an object

  class Bucket {
    var objects: map<string, string>
    var puts: seq<PutRecord>
    const service: Service

    function State(): Store
      reads this
    {
      Store(objects, puts)
    }

    constructor (objects0: map<string, string>, service: Service)
      ensures objects == objects0 && puts == [] && this.service == service
    {
      objects := objects0;
      puts := [];
      this.service := service;
    }

    /** `fileExistsInR2(key)`. */
    method FileExistsInR2(key: string) returns (r: Result<bool, nat>)
      ensures r == FileExists(Head(objects, service, key))
    {
      if key in service.headFaults {
        var status := service.headFaults[key];
        if status == 404 {
          r := Success(false);
        } else {
          r := Failure(status);
        }
      } else {
        r := Success(key in objects);
      }
    }

    /** `uploadToR2(path, key)`. */
    method UploadToR2(key: string) returns (r: Option<string>)
      modifies this
      ensures (r, State()) == Put(old(State()), service, key)
    {
      var ct := MediaPaths.ContentType(key);
      var ok := key !in service.rejected;
      puts := puts + [PutRecord(key, ct, PublicRead, ok)];
      if ok {
        objects := objects[key := ct];
        r := Some(service.location + "/" + key);
      } else {
        r := None;
      }
    }
  }
}
