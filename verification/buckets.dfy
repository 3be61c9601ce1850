/** Names of the storage locations a run writes to: the output bucket that sits beside the input
    bucket, and the `gs://` path of an object. */
module Buckets {
  import opened Wrappers
  import opened Text

  const OutputSuffix := "_output"
  const Scheme := "gs://"

  /** `save_to_bucket_name`: the bucket that receives the archive copy and the exports. */
  function SaveToBucketName(bucket: string): (r: string)
    ensures |r| == |bucket| + |OutputSuffix|
    ensures r[..|bucket|] == bucket && EndsWith(r, OutputSuffix)
  {
    bucket + OutputSuffix
  }

  /** The input bucket an output bucket belongs to, if it is one. */
  function InputBucketOf(out: string): (r: Option<string>)
    ensures r.Some? ==> |r.value| + |OutputSuffix| == |out|
  {
    if EndsWith(out, OutputSuffix) then Some(out[..|out| - |OutputSuffix|]) else None
  }

  lemma SaveToBucketNameRoundTrip(bucket: string)
    ensures InputBucketOf(SaveToBucketName(bucket)) == Some(bucket)
  {
  }

  lemma InputBucketOfRoundTrip(out: string)
    ensures InputBucketOf(out).Some? ==> SaveToBucketName(InputBucketOf(out).value) == out
  {
  }

  /** Distinct input buckets never share an output bucket. */
  lemma SaveToBucketNameInjective(a: string, b: string)
    ensures SaveToBucketName(a) == SaveToBucketName(b) ==> a == b
  {
    SaveToBucketNameRoundTrip(a);
    SaveToBucketNameRoundTrip(b);
  }

  /** The output bucket's name has a `/` only where the input bucket's has one. */
  lemma SaveToBucketNameKeepsSlashFree(bucket: string)
    requires '/' !in bucket
    ensures '/' !in SaveToBucketName(bucket)
  {
    var out := SaveToBucketName(bucket);
    assert forall i :: 0 <= i < |out| ==> out[i] != '/' by {
      assert forall i :: 0 <= i < |bucket| ==> out[i] == bucket[i];
      assert forall i :: |bucket| <= i < |out| ==> out[i] == OutputSuffix[i - |bucket|];
    }
  }

  /** `gen_full_bucket_path`. */
  function GenFullBucketPath(bucket: string, name: string): (r: string)
    ensures |r| == |Scheme| + |bucket| + 1 + |name|
    ensures r[..|Scheme|] == Scheme && r[|Scheme| + |bucket|] == '/'
  {
    Scheme + bucket + "/" + name
  }

  /** Position of the first `c` in `s`. */
  function IndexOf(s: string, c: char): (r: Option<nat>)
    ensures r.Some? ==> r.value < |s| && s[r.value] == c && c !in s[..r.value]
    ensures r.None? ==> c !in s
  {
    if |s| == 0 then None
    else if s[0] == c then Some(0)
    else match IndexOf(s[1..], c)
      case None => None
      case Some(i) => assert s[..i + 1] == [s[0]] + s[1..][..i]; Some(i + 1)
  }

  /** Bucket and object name of a `gs://` path: the bucket runs to the first `/`. */
  function SplitBucketPath(path: string): (r: Option<(string, string)>)
    ensures r.Some? ==> GenFullBucketPath(r.value.0, r.value.1) == path && '/' !in r.value.0
  {
    if |path| < |Scheme| || path[..|Scheme|] != Scheme then None
    else
      var rest := path[|Scheme|..];
      match IndexOf(rest, '/')
      case None => None
      case Some(i) =>
        assert rest == rest[..i] + "/" + rest[i + 1..];
        assert path == Scheme + rest;
        Some((rest[..i], rest[i + 1..]))
  }

  /** A path names its bucket and object exactly when the bucket holds no `/`; object names may
      hold any character. */
  lemma GenFullBucketPathRoundTrip(bucket: string, name: string)
    requires '/' !in bucket
    ensures SplitBucketPath(GenFullBucketPath(bucket, name)) == Some((bucket, name))
  {
    var path := GenFullBucketPath(bucket, name);
    var rest := path[|Scheme|..];
    assert rest == bucket + "/" + name;
    assert rest[..|bucket|] == bucket;
    IndexOfAfter(bucket, name);
  }

  lemma IndexOfAfter(bucket: string, name: string)
    requires '/' !in bucket
    ensures IndexOf(bucket + "/" + name, '/') == Some(|bucket|)
  {
    var s := bucket + "/" + name;
    assert s[|bucket|] == '/';
    assert '/' in s;
    var i := IndexOf(s, '/').value;
    assert forall j :: 0 <= j < |bucket| ==> s[j] != '/' by {
      assert forall j :: 0 <= j < |bucket| ==> s[j] == bucket[j];
    }
    assert forall j :: 0 <= j < i ==> s[j] != '/' by {
      assert forall j :: 0 <= j < i ==> s[j] == s[..i][j];
    }
  }

  /** Without that condition two different pairs give the same path. */
  lemma GenFullBucketPathAmbiguous()
    ensures GenFullBucketPath("a/b", "c") == GenFullBucketPath("a", "b/c")
  {
  }
}
