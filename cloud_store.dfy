/** The helper around the remote image store (server/utils/uploadToCloudinary.js):
    the configuration check, the fail-fast upload, the delete that never fails its
    caller, and the derivation of a public id from an image URL. The provider's SDK
    is outside the model: an upload is given the provider's reply as a parameter,
    and the store object keeps a log of the calls the helper makes. */
module CloudStore {
  import opened Media

  /** The three credentials read from the process environment; `None` is an
      unset variable. */
  datatype Env = Env(cloudName: Option<string>, apiKey: Option<string>, apiSecret: Option<string>)

  const DefaultFolder := "real-estate-club"
  const PublicIdPrefix := "real-estate-club/"
  const NotConfiguredError := "Cloudinary is not configured. Please set up your Cloudinary credentials in .env file or use image URLs instead."

  /** A set, non-empty environment variable (JavaScript truthiness of a string). */
  predicate IsSet(v: Option<string>) {
    v.Some? && v.value != ""
  }

  /** `isCloudinaryConfigured`: both the cloud name and the API key are set and
      are not the placeholders of the sample environment file. */
  predicate IsConfigured(env: Env)
    ensures IsConfigured(env) ==>
      env.cloudName.Some? && |env.cloudName.value| > 0 && env.apiKey.Some? && |env.apiKey.value| > 0
  {
    IsSet(env.cloudName) && env.cloudName.value != "your_cloud_name" &&
    IsSet(env.apiKey) && env.apiKey.value != "your_api_key"
  }

  /** The API secret plays no part in the check, and either placeholder, an
      empty value or an unset variable makes the store count as unconfigured. */
  lemma ConfigurationRules(env: Env, secret: Option<string>)
    ensures IsConfigured(env.(apiSecret := secret)) == IsConfigured(env)
    ensures !IsConfigured(env.(cloudName := Some("your_cloud_name")))
    ensures !IsConfigured(env.(apiKey := Some("your_api_key")))
    ensures !IsConfigured(env.(cloudName := Some(""))) && !IsConfigured(env.(cloudName := None))
    ensures !IsConfigured(env.(apiKey := Some(""))) && !IsConfigured(env.(apiKey := None))
    ensures IsConfigured(env) <==>
      env.cloudName.Some? && env.cloudName.value !in {"", "your_cloud_name"} &&
      env.apiKey.Some? && env.apiKey.value !in {"", "your_api_key"}
  {
  }

  /** A URL the provider hands back for a stored image (`secure_url`); it is
      never empty. */
  type SecureUrl = s: string | s != "" witness "https://res.cloudinary.com/"

  /** What the provider answers to an upload stream. */
  datatype ProviderReply = Stored(secureUrl: SecureUrl) | Rejected(error: string)

  /** What `uploadToCloudinary` settles to: the stored image's URL, or the
      message of the error it rejects with. */
  datatype Uploaded = Ok(url: SecureUrl) | Err(message: string)

  /** The outcome of an upload, given the provider's reply to it. */
  function UploadOutcome(env: Env, reply: ProviderReply): (r: Uploaded)
    ensures !IsConfigured(env) ==> r == Err(NotConfiguredError)
    ensures IsConfigured(env) && reply.Stored? ==> r == Ok(reply.secureUrl)
    ensures IsConfigured(env) && reply.Rejected? ==> r == Err(reply.error)
  {
    if !IsConfigured(env) then Err(NotConfiguredError)
    else match reply
      case Stored(url) => Ok(url)
      case Rejected(e) => Err(e)
  }

  // ---------------------------------------------------------------------------
  // Public id derivation: `imageUrl.split('/')`, last part, `.split('.')[0]`.

  /** `s.split(sep)` for a one-character separator: the maximal runs between
      separators, in order, so that there is always at least one part. */
  function Split(s: string, sep: char): (parts: seq<string>)
    ensures |parts| >= 1
    decreases |s|
  {
    if s == [] then [""]
    else
      var rest := Split(s[1..], sep);
      if s[0] == sep then [""] + rest
      else [[s[0]] + rest[0]] + rest[1..]
  }

  /** One step of `Split`, stated on a string written as its first character
      and the rest. */
  lemma SplitCons(c: char, t: string, sep: char)
    ensures Split([c] + t, sep) ==
      if c == sep then [""] + Split(t, sep) else [[c] + Split(t, sep)[0]] + Split(t, sep)[1..]
  {
    assert ([c] + t)[1..] == t;
  }

  /** No part contains the separator. */
  lemma {:induction false} SplitPartsFree(s: string, sep: char)
    ensures forall i :: 0 <= i < |Split(s, sep)| ==> sep !in Split(s, sep)[i]
    decreases |s|
  {
    if s != [] {
      SplitPartsFree(s[1..], sep);
      SplitCons(s[0], s[1..], sep);
      assert s == [s[0]] + s[1..];
    }
  }

  /** The first part starts the string, and it is the whole string when it is
      the only part. */
  lemma {:induction false} SplitFirst(s: string, sep: char)
    ensures Split(s, sep)[0] <= s
    ensures |Split(s, sep)| == 1 ==> Split(s, sep)[0] == s
    decreases |s|
  {
    if s != [] {
      SplitFirst(s[1..], sep);
      SplitCons(s[0], s[1..], sep);
      assert s == [s[0]] + s[1..];
    }
  }

  /** The last part ends the string. */
  lemma {:induction false} SplitLast(s: string, sep: char)
    ensures var parts := Split(s, sep);
      |parts[|parts| - 1]| <= |s| && parts[|parts| - 1] == s[|s| - |parts[|parts| - 1]|..]
    decreases |s|
  {
    if s != [] {
      SplitLast(s[1..], sep);
      SplitCons(s[0], s[1..], sep);
      assert s == [s[0]] + s[1..];
      var rest := Split(s[1..], sep);
      var last := rest[|rest| - 1];
      assert s[1..][|s| - 1 - |last|..] == s[|s| - |last|..];
      if |rest| == 1 && s[0] != sep {
        SplitFirst(s[1..], sep);
      }
    }
  }

  /** `parts.join(sep)`, the inverse of `Split`. */
  function Join(parts: seq<string>, sep: char): string
    requires |parts| >= 1
  {
    if |parts| == 1 then parts[0] else parts[0] + [sep] + Join(parts[1..], sep)
  }

  lemma {:induction false} JoinSplit(s: string, sep: char)
    ensures Join(Split(s, sep), sep) == s
    decreases |s|
  {
    if s != [] {
      JoinSplit(s[1..], sep);
      SplitCons(s[0], s[1..], sep);
      assert s == [s[0]] + s[1..];
      var rest := Split(s[1..], sep);
      if s[0] != sep && |rest| > 1 {
        assert rest == [rest[0]] + rest[1..];
        assert Join(rest, sep) == rest[0] + [sep] + Join(rest[1..], sep);
        assert Join(Split(s, sep), sep) == [s[0]] + rest[0] + [sep] + Join(rest[1..], sep);
      }
    }
  }

  /** The step of `Split` commutes with appending further parts. */
  lemma SplitStepAppend(c: char, sep: char, left: seq<string>, right: seq<string>)
    requires |left| >= 1
    ensures (if c == sep then [""] + (left + right) else [[c] + (left + right)[0]] + (left + right)[1..]) ==
      (if c == sep then [""] + left else [[c] + left[0]] + left[1..]) + right
  {
    if c != sep {
      assert (left + right)[0] == left[0];
      assert (left + right)[1..] == left[1..] + right;
    }
  }

  /** Splitting at a separator splits the two sides independently. */
  lemma {:induction false} SplitAround(a: string, b: string, sep: char)
    ensures Split(a + [sep] + b, sep) == Split(a, sep) + Split(b, sep)
    decreases |a|
  {
    var right := Split(b, sep);
    if a == [] {
      calc {
        Split(a + [sep] + b, sep);
        { assert a + [sep] + b == [sep] + b; }
        Split([sep] + b, sep);
        { SplitCons(sep, b, sep); }
        [""] + right;
      }
    } else {
      var c, t := a[0], a[1..];
      var left := Split(t, sep);
      SplitAround(t, b, sep);
      calc {
        Split(a + [sep] + b, sep);
        { assert a + [sep] + b == [c] + (t + [sep] + b); }
        Split([c] + (t + [sep] + b), sep);
        { SplitCons(c, t + [sep] + b, sep); }
        if c == sep then [""] + (left + right) else [[c] + (left + right)[0]] + (left + right)[1..];
        { SplitStepAppend(c, sep, left, right); }
        (if c == sep then [""] + left else [[c] + left[0]] + left[1..]) + right;
        { SplitCons(c, t, sep); assert [c] + t == a; }
        Split(a, sep) + right;
      }
    }
  }

  lemma {:induction false} SplitJoin(parts: seq<string>, sep: char)
    requires |parts| >= 1
    requires forall i :: 0 <= i < |parts| ==> sep !in parts[i]
    ensures Split(Join(parts, sep), sep) == parts
    decreases |parts|
  {
    if |parts| == 1 {
      SplitWithout(parts[0], sep);
    } else {
      SplitJoin(parts[1..], sep);
      SplitAround(parts[0], Join(parts[1..], sep), sep);
      SplitWithout(parts[0], sep);
      assert parts == [parts[0]] + parts[1..];
    }
  }

  /** A string without the separator splits into itself. */
  lemma {:induction false} SplitWithout(s: string, sep: char)
    requires sep !in s
    ensures Split(s, sep) == [s]
    decreases |s|
  {
    if s != [] {
      assert s == [s[0]] + s[1..];
      assert sep !in s[1..];
      SplitWithout(s[1..], sep);
      SplitCons(s[0], s[1..], sep);
    }
  }

  /** `parts[parts.length - 1]` of `url.split('/')`. */
  function LastSegment(url: string): string {
    var parts := Split(url, '/');
    parts[|parts| - 1]
  }

  /** `filename.split('.')[0]`. */
  function Stem(name: string): string {
    Split(name, '.')[0]
  }

  /** The public id `deleteFromCloudinary` asks the provider to destroy:
      `real-estate-club/` followed by the last path segment of the URL cut at
      its first dot. It never contains a further slash or a dot, and it is made
      from a suffix of the URL. */
  function PublicId(url: string): (id: string)
    ensures |id| >= |PublicIdPrefix| && id[..|PublicIdPrefix|] == PublicIdPrefix
    ensures '/' !in id[|PublicIdPrefix|..] && '.' !in id[|PublicIdPrefix|..]
    ensures exists i :: 0 <= i <= |url| && id[|PublicIdPrefix|..] <= url[i..]
  {
    var last := LastSegment(url);
    var stem := Stem(last);
    SplitLast(url, '/');
    SplitPartsFree(url, '/');
    SplitFirst(last, '.');
    SplitPartsFree(last, '.');
    assert forall c :: c in stem ==> c in last;
    assert stem <= url[|url| - |last|..];
    PublicIdPrefix + stem
  }

  /** Only the last path segment counts: every directory in front of it,
      sub-folders included, is ignored. */
  lemma PublicIdIgnoresDirectories(dir: string, name: string)
    ensures PublicId(dir + "/" + name) == PublicId(name)
  {
    SplitAround(dir, name, '/');
    assert dir + "/" + name == dir + ['/'] + name;
  }

  /** The id of a file `stem.ext` is the prefix followed by the stem: everything
      after the first dot is dropped. */
  lemma PublicIdOfFileName(stem: string, ext: string)
    requires '/' !in stem && '.' !in stem && '/' !in ext
    ensures PublicId(stem + "." + ext) == PublicIdPrefix + stem
  {
    var name := stem + "." + ext;
    assert '/' !in name by {
      assert forall c :: c in name ==> c in stem || c == '.' || c in ext;
    }
    SplitWithout(name, '/');
    assert name == stem + ['.'] + ext;
    SplitAround(stem, ext, '.');
    SplitWithout(stem, '.');
  }

  /** A last segment without a dot is taken whole. */
  lemma PublicIdOfPlainName(dir: string, name: string)
    requires '/' !in name && '.' !in name
    ensures PublicId(dir + "/" + name) == PublicIdPrefix + name
  {
    PublicIdIgnoresDirectories(dir, name);
    SplitWithout(name, '/');
    SplitWithout(name, '.');
  }

  /** Two URLs that end in the same file name, whatever their folders, yield
      the same public id. */
  lemma SameFileNameSameId(dir1: string, dir2: string, name: string)
    ensures PublicId(dir1 + "/" + name) == PublicId(dir2 + "/" + name)
  {
    PublicIdIgnoresDirectories(dir1, name);
    PublicIdIgnoresDirectories(dir2, name);
  }

  // ---------------------------------------------------------------------------
  // Delivery URLs and the public id the provider actually gave the image.

  /** The provider's delivery host, which every `secure_url` it returns starts
      with unless the account has a custom delivery domain. */
  const DeliveryHost := "https://res.cloudinary.com/"

  /** The delivery URL of an image stored under `folder` with generated name
      `stem` and format `ext`; `version` is the `v<digits>` segment the
      provider puts in front of the folder. */
  function DeliveryUrl(cloud: string, version: string, folder: string, stem: string, ext: string): string {
    DeliveryHost + cloud + "/image/upload/" + version + "/" + folder + "/" + stem + "." + ext
  }

  /** The derivation as the upload's own folder would give it: the folder the
      image was uploaded into, then the file's stem. */
  function PublicIdIn(folder: string, url: string): (id: string)
    ensures |id| > |folder| && id[..|folder| + 1] == folder + "/"
  {
    folder + "/" + Stem(LastSegment(url))
  }

  /** For every image the routes upload, into `real-estate-club/events`,
      `real-estate-club/team` or `real-estate-club/gallery`, the derived id
      drops the sub-folder, so it is not the id under which the image is
      stored. */
  lemma PublicIdDropsSubfolder(cloud: string, version: string, sub: string, stem: string, ext: string)
    requires sub in {"events", "team", "gallery"}
    requires '/' !in stem && '.' !in stem && '/' !in ext
    ensures PublicId(DeliveryUrl(cloud, version, DefaultFolder + "/" + sub, stem, ext)) == PublicIdPrefix + stem
    ensures PublicId(DeliveryUrl(cloud, version, DefaultFolder + "/" + sub, stem, ext)) != DefaultFolder + "/" + sub + "/" + stem
  {
    var folder := DefaultFolder + "/" + sub;
    var dir := DeliveryHost + cloud + "/image/upload/" + version + "/" + folder;
    assert DeliveryUrl(cloud, version, folder, stem, ext) == dir + "/" + (stem + "." + ext);
    PublicIdIgnoresDirectories(dir, stem + "." + ext);
    PublicIdOfFileName(stem, ext);
    assert |PublicIdPrefix + stem| < |DefaultFolder + "/" + sub + "/" + stem|;
  }

  /** With the upload's folder, the derived id is exactly the stored image's id. */
  lemma PublicIdInRoundTrip(cloud: string, version: string, folder: string, stem: string, ext: string)
    requires '/' !in stem && '.' !in stem && '/' !in ext
    ensures PublicIdIn(folder, DeliveryUrl(cloud, version, folder, stem, ext)) == folder + "/" + stem
  {
    var url := DeliveryUrl(cloud, version, folder, stem, ext);
    var dir := DeliveryHost + cloud + "/image/upload/" + version + "/" + folder;
    assert url == dir + "/" + (stem + "." + ext);
    PublicIdIgnoresDirectories(dir, stem + "." + ext);
    PublicIdOfFileName(stem, ext);
    assert Stem(LastSegment(url)) == stem by {
      assert PublicId(url) == PublicIdPrefix + stem;
      assert PublicId(url) == PublicIdPrefix + Stem(LastSegment(url));
    }
  }

  // ---------------------------------------------------------------------------

  /** The remote image store as the helper drives it. The logs record, in
      order, every upload stream opened (its folder), every URL handed to the
      delete helper and every public id sent to the provider's destroy call. */
  class Store {
    const env: Env
    var streams: seq<string>
    var deleteCalls: seq<string>
    var destroyCalls: seq<string>

    constructor(env: Env)
      ensures this.env == env
      ensures streams == [] && deleteCalls == [] && destroyCalls == []
    {
      this.env := env;
      streams, deleteCalls, destroyCalls := [], [], [];
    }

    /** `uploadToCloudinary(buffer, folder)`: rejects at once, opening no
        stream, when the store is not configured; otherwise opens one stream
        into `folder` and settles to the provider's `secure_url` or error. */
    method Upload(file: File, reply: ProviderReply, folder: string := DefaultFolder) returns (r: Uploaded)
      modifies this
      ensures r == UploadOutcome(env, reply)
      ensures streams == old(streams) + (if IsConfigured(env) then [folder] else [])
      ensures deleteCalls == old(deleteCalls) && destroyCalls == old(destroyCalls)
    {
      if !IsConfigured(env) {
        return Err(NotConfiguredError);
      }
      streams := streams + [folder];
      match reply
      case Stored(url) => r := Ok(url);
      case Rejected(e) => r := Err(e);
    }

    /** `deleteFromCloudinary(url)`: a no-op when the store is not configured,
        otherwise one destroy call for `PublicId(url)`. Whatever the provider
        answers is logged and swallowed, so the call has no outcome. */
    method Delete(url: string)
      modifies this
      ensures deleteCalls == old(deleteCalls) + [url]
      ensures destroyCalls == old(destroyCalls) + (if IsConfigured(env) then [PublicId(url)] else [])
      ensures streams == old(streams)
    {
      deleteCalls := deleteCalls + [url];
      if !IsConfigured(env) {
        return;
      }
      destroyCalls := destroyCalls + [PublicId(url)];
    }
  }
}
