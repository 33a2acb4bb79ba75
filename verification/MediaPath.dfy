/**
 Where one message's attachment lives on disk. Paths are built lexically: Go's
 `filepath.Clean`, `Join` and `Rel` on Unix, as operations on components.
 */
module MediaPath {
  import opened Text

  const SLASH := '/'

  // ------------------------------------------------------------- lexical paths

  predicate Rooted(path: string) { path != "" && path[0] == SLASH }

  /** One component of a path, applied to the components kept so far. */
  function Push(rooted: bool, kept: seq<string>, part: string): seq<string> {
    if part == "" || part == "." then kept
    else if part == ".." then
      if kept != [] && kept[|kept| - 1] != ".." then kept[..|kept| - 1]
      else if rooted then kept
      else kept + [".."]
    else kept + [part]
  }

  function Normalise(rooted: bool, parts: seq<string>): seq<string> {
    if parts == [] then [] else Push(rooted, Normalise(rooted, parts[..|parts| - 1]), parts[|parts| - 1])
  }

  /** The components `filepath.Clean` keeps. */
  function Components(path: string): seq<string> {
    Normalise(Rooted(path), Split(path, SLASH))
  }

  function RenderPath(rooted: bool, parts: seq<string>): string {
    if rooted then "/" + Join(parts, SLASH)
    else if parts == [] then "."
    else Join(parts, SLASH)
  }

  function Clean(path: string): string {
    if path == "" then "." else RenderPath(Rooted(path), Components(path))
  }

  /** filepath.Join of two elements. */
  function JoinPath(dir: string, name: string): string {
    if dir == "" then (if name == "" then "" else Clean(name)) else Clean(dir + "/" + name)
  }

  function CommonPrefix(a: seq<string>, b: seq<string>): (n: nat)
    ensures n <= |a| && n <= |b|
  {
    if a != [] && b != [] && a[0] == b[0] then 1 + CommonPrefix(a[1..], b[1..]) else 0
  }

  /** filepath.Rel; `None` is its error. */
  function Rel(base: string, target: string): Option<string> {
    var b, t := Components(base), Components(target);
    if Clean(base) == Clean(target) then Some(".")
    else if Rooted(Clean(base)) != Rooted(Clean(target)) then None
    else
      var n := CommonPrefix(b, t);
      if n < |b| && b[n] == ".." then None
      else Some(Join(seq(|b| - n, i => "..") + t[n..], SLASH))
  }

  /** No climb leads from the directory to the path. */
  predicate WithinDir(dir: string, path: string) {
    match Rel(Clean(dir), Clean(path))
    case None => false
    case Some(rel) => rel != ".." && !HasPrefix(rel, "../") && !Rooted(rel)
  }

  // ------------------------------------------------------------ the media path

  const MAX_TENANT_SEGMENT := 64

  predicate SegmentChar(c: char) {
    'a' <= c <= 'z' || 'A' <= c <= 'Z' || '0' <= c <= '9' || c == '-' || c == '_' || c == '.'
  }

  /** Short, from a narrow alphabet, and never a step up the tree. */
  predicate SafeTenantSegment(tenant: string) {
    && tenant != "" && |tenant| <= MAX_TENANT_SEGMENT
    && tenant != "." && tenant != ".." && !Contains(tenant, "..")
    && forall c :: c in tenant ==> SegmentChar(c)
  }

  /** A suffix that can end any file name. */
  predicate PlainSuffix(ext: string) {
    0 < |ext| <= 5 && SLASH !in ext
  }

  function KnownExtension(mime: string): (r: Option<string>)
    ensures r.Some? ==> PlainSuffix(r.value)
  {
    if mime == "image/jpeg" then Some(".jpg")
    else if mime == "image/png" then Some(".png")
    else if mime == "image/webp" then Some(".webp")
    else if mime == "image/gif" then Some(".gif")
    else if mime == "audio/ogg" then Some(".ogg")
    else if mime == "audio/opus" then Some(".opus")
    else if mime == "audio/mpeg" then Some(".mp3")
    else if mime == "audio/mp4" then Some(".m4a")
    else if mime == "audio/aac" then Some(".aac")
    else if mime == "audio/amr" then Some(".amr")
    else if mime == "audio/wav" then Some(".wav")
    else if mime == "video/mp4" then Some(".mp4")
    else if mime == "video/3gpp" then Some(".3gp")
    else if mime == "video/quicktime" then Some(".mov")
    else if mime == "video/webm" then Some(".webm")
    else if mime == "application/pdf" then Some(".pdf")
    else None
  }

  function MediaExtension(mime: string): (ext: string)
    ensures PlainSuffix(ext)
  {
    var semicolon := IndexOf(mime, ';');
    var base := if semicolon >= 0 then mime[..semicolon] else mime;
    match KnownExtension(Lower(TrimSpace(base)))
    case Some(ext) => ext
    case None => ".bin"
  }

  /** The lower-case hex of a SHA-256 digest. */
  predicate HexDigest(digest: string) {
    |digest| == 64 && forall c :: c in digest ==> '0' <= c <= '9' || 'a' <= c <= 'f'
  }

  function FileName(digest: string, mime: string): string { digest + MediaExtension(mime) }

  /** Root, then tenant, then `digest` (the hash of the message id) with its suffix. */
  function MediaPathFor(root: string, tenant: string, messageId: string, digest: string, mime: string): Option<string> {
    if TrimSpace(root) == "" || !SafeTenantSegment(tenant) || TrimSpace(messageId) == "" then None
    else
      var dir := JoinPath(root, tenant);
      var path := JoinPath(dir, FileName(digest, mime));
      if WithinDir(dir, path) then Some(path) else None
  }

  /** A name put under a cleaned directory. */
  function Under(dir: string, name: string): string {
    if dir == "/" then "/" + name else if dir == "." then name else dir + "/" + name
  }

  // --------------------------------------------------------------- normal forms

  /** A component that names something below its parent. */
  predicate Ordinary(part: string) {
    part != "" && part != "." && part != ".." && SLASH !in part
  }

  /** What Clean leaves: no empty or dot components, ".." only in front, and none under a root. */
  ghost predicate Normal(rooted: bool, parts: seq<string>) {
    forall i :: 0 <= i < |parts| ==> NormalAt(rooted, parts, i)
  }

  predicate NormalAt(rooted: bool, parts: seq<string>, i: nat)
    requires i < |parts|
  {
    && parts[i] != "" && parts[i] != "." && SLASH !in parts[i]
    && (parts[i] == ".." ==> !rooted && (i == 0 || parts[i - 1] == ".."))
  }

  lemma NormalInit(rooted: bool, parts: seq<string>, n: nat)
    requires Normal(rooted, parts) && n <= |parts|
    ensures Normal(rooted, parts[..n])
  {
    forall i | 0 <= i < n ensures NormalAt(rooted, parts[..n], i) {
      assert NormalAt(rooted, parts, i);
    }
  }

  lemma NormalAppend(rooted: bool, parts: seq<string>, part: string)
    requires Normal(rooted, parts)
    requires Ordinary(part) || (part == ".." && !rooted && (parts == [] || parts[|parts| - 1] == ".."))
    ensures Normal(rooted, parts + [part])
  {
    forall i | 0 <= i <= |parts| ensures NormalAt(rooted, parts + [part], i) {
      assert i < |parts| ==> NormalAt(rooted, parts, i);
    }
  }

  lemma PushKeepsNormal(rooted: bool, kept: seq<string>, part: string)
    requires Normal(rooted, kept) && SLASH !in part
    ensures Normal(rooted, Push(rooted, kept, part))
  {
    if part == "" || part == "." {
    } else if part == ".." && kept != [] && kept[|kept| - 1] != ".." {
      NormalInit(rooted, kept, |kept| - 1);
    } else if part == ".." && rooted {
    } else {
      NormalAppend(rooted, kept, part);
    }
  }

  lemma {:induction false} NormaliseIsNormal(rooted: bool, parts: seq<string>)
    requires forall p :: p in parts ==> SLASH !in p
    ensures Normal(rooted, Normalise(rooted, parts))
  {
    if parts != [] {
      assert parts[|parts| - 1] in parts;
      NormaliseIsNormal(rooted, parts[..|parts| - 1]);
      PushKeepsNormal(rooted, Normalise(rooted, parts[..|parts| - 1]), parts[|parts| - 1]);
    }
  }

  lemma {:induction false} NormalStays(rooted: bool, parts: seq<string>)
    requires Normal(rooted, parts)
    ensures Normalise(rooted, parts) == parts
  {
    if parts != [] {
      var n := |parts| - 1;
      NormalInit(rooted, parts, n);
      NormalStays(rooted, parts[..n]);
      assert NormalAt(rooted, parts, n);
      assert parts == parts[..n] + [parts[n]];
    }
  }

  lemma NormaliseLast(rooted: bool, parts: seq<string>, last: string)
    ensures Normalise(rooted, parts + [last]) == Push(rooted, Normalise(rooted, parts), last)
  {
    assert (parts + [last])[..|parts|] == parts;
  }

  lemma {:induction false} LeadingEmptyIsDropped(rooted: bool, parts: seq<string>)
    ensures Normalise(rooted, [""] + parts) == Normalise(rooted, parts)
  {
    if parts == [] {
      assert [""][..0] == [];
      assert [""] + parts == [""];
    } else {
      var n := |parts| - 1;
      LeadingEmptyIsDropped(rooted, parts[..n]);
      assert [""] + parts == ([""] + parts[..n]) + [parts[n]];
      NormaliseLast(rooted, [""] + parts[..n], parts[n]);
    }
  }

  lemma ComponentsAreNormal(path: string)
    ensures Normal(Rooted(path), Components(path))
  {
    NormaliseIsNormal(Rooted(path), Split(path, SLASH));
  }

  /** Appending an ordinary name appends one component. */
  lemma ComponentsOfChild(path: string, name: string)
    requires path != "" && Ordinary(name)
    ensures Rooted(path + "/" + name) == Rooted(path)
    ensures Components(path + "/" + name) == Components(path) + [name]
  {
    assert path + "/" + name == path + [SLASH] + name;
    SplitConcat(path, SLASH, name);
    assert IndexOf(name, SLASH) < 0;
    NormaliseLast(Rooted(path), Split(path, SLASH), name);
  }

  lemma JoinStarts(parts: seq<string>)
    requires parts != [] && parts[0] != ""
    ensures Join(parts, SLASH) != "" && Join(parts, SLASH)[0] == parts[0][0]
  {
  }

  /** A rendered normal form reads back as itself. */
  lemma ComponentsOfRendered(rooted: bool, parts: seq<string>)
    requires Normal(rooted, parts) && parts != []
    ensures Rooted(RenderPath(rooted, parts)) == rooted
    ensures Components(RenderPath(rooted, parts)) == parts
  {
    var path := RenderPath(rooted, parts);
    forall p | p in parts ensures SLASH !in p {
      var i :| 0 <= i < |parts| && parts[i] == p;
      assert NormalAt(rooted, parts, i);
    }
    assert NormalAt(rooted, parts, 0);
    SplitJoin(parts, SLASH);
    JoinStarts(parts);
    assert parts[0][0] in parts[0];
    if rooted {
      assert path == "" + [SLASH] + Join(parts, SLASH);
      SplitAt("", SLASH, Join(parts, SLASH));
      LeadingEmptyIsDropped(true, parts);
    }
    NormalStays(rooted, parts);
  }

  lemma {:induction false} JoinAppend(parts: seq<string>, last: string)
    requires parts != []
    ensures Join(parts + [last], SLASH) == Join(parts, SLASH) + "/" + last
  {
    var all := parts + [last];
    JoinHead(all);
    if |parts| > 1 {
      JoinHead(parts);
      JoinAppend(parts[1..], last);
      assert all[1..] == parts[1..] + [last];
    } else {
      assert all[1..] == [last];
    }
  }

  lemma JoinHead(parts: seq<string>)
    requires |parts| > 1
    ensures Join(parts, SLASH) == parts[0] + "/" + Join(parts[1..], SLASH)
  {
  }

  /** Rendering one component more is putting a name under the rendered directory. */
  lemma RenderUnder(rooted: bool, parts: seq<string>, name: string)
    requires Normal(rooted, parts)
    ensures RenderPath(rooted, parts + [name]) == Under(RenderPath(rooted, parts), name)
  {
    if parts == [] {
      assert parts + [name] == [name];
    } else {
      assert NormalAt(rooted, parts, 0);
      JoinAppend(parts, name);
      JoinStarts(parts);
      assert parts[0][0] in parts[0];
      if |parts| == 1 {
        assert Join(parts, SLASH) == parts[0];
      } else {
        assert |Join(parts, SLASH)| > 1;
      }
    }
  }

  // ------------------------------------------------------------------ the checks

  lemma NameIsOrdinary(digest: string, mime: string)
    requires HexDigest(digest)
    ensures Ordinary(FileName(digest, mime))
  {
    var name := FileName(digest, mime);
    assert |name| > 64;
    forall c | c in name ensures c != SLASH {
      assert c in digest || c in MediaExtension(mime);
    }
  }

  lemma SegmentIsOrdinary(tenant: string)
    requires SafeTenantSegment(tenant)
    ensures Ordinary(tenant)
  {
    assert !SegmentChar(SLASH);
  }

  /** A child of a normal directory is always within it. */
  lemma ChildIsWithin(rooted: bool, parts: seq<string>, name: string)
    requires parts != [] && Normal(rooted, parts) && Ordinary(name)
    requires Normal(rooted, parts + [name])
    ensures WithinDir(RenderPath(rooted, parts), RenderPath(rooted, parts + [name]))
  {
    var dir, path := RenderPath(rooted, parts), RenderPath(rooted, parts + [name]);
    ComponentsOfRendered(rooted, parts);
    ComponentsOfRendered(rooted, parts + [name]);
    assert Clean(dir) == dir && Clean(path) == path;
    PrefixIsCommon(parts, name);
    var ups := seq(|parts| - |parts|, i => "..");
    assert ups + (parts + [name])[|parts|..] == [name];
    assert Join([name], SLASH) == name;
    assert name[0] in name;
    if |name| >= 3 {
      assert name[2] in name;
    }
  }

  lemma {:induction false} PrefixIsCommon(parts: seq<string>, name: string)
    ensures CommonPrefix(parts, parts + [name]) == |parts|
  {
    if parts != [] {
      PrefixIsCommon(parts[1..], name);
      assert (parts + [name])[1..] == parts[1..] + [name];
    }
  }

  lemma PathComponents(root: string, tenant: string, name: string)
    requires root != "" && Ordinary(tenant) && Ordinary(name)
    ensures var parts := Components(root);
            && Normal(Rooted(root), parts + [tenant]) && Normal(Rooted(root), parts + [tenant] + [name])
            && JoinPath(root, tenant) == RenderPath(Rooted(root), parts + [tenant])
            && JoinPath(JoinPath(root, tenant), name) == RenderPath(Rooted(root), parts + [tenant] + [name])
  {
    var parts := Components(root);
    ComponentsAreNormal(root);
    NormalAppend(Rooted(root), parts, tenant);
    NormalAppend(Rooted(root), parts + [tenant], name);
    ComponentsOfChild(root, tenant);
    var dir := JoinPath(root, tenant);
    ComponentsOfRendered(Rooted(root), parts + [tenant]);
    assert dir != "";
    ComponentsOfChild(dir, name);
  }

  /** Whenever the root, tenant and id checks pass, the path is the cleaned root, the tenant and
      the file name, and the final containment check always holds. */
  lemma CheckedPathIsInside(root: string, tenant: string, messageId: string, digest: string, mime: string)
    requires HexDigest(digest)
    ensures MediaPathFor(root, tenant, messageId, digest, mime) ==
            if TrimSpace(root) != "" && SafeTenantSegment(tenant) && TrimSpace(messageId) != ""
            then Some(Under(Under(Clean(root), tenant), FileName(digest, mime)))
            else None
  {
    if TrimSpace(root) != "" && SafeTenantSegment(tenant) && TrimSpace(messageId) != "" {
      var name := FileName(digest, mime);
      var parts := Components(root);
      assert root != "";
      NameIsOrdinary(digest, mime);
      SegmentIsOrdinary(tenant);
      ComponentsAreNormal(root);
      PathComponents(root, tenant, name);
      RenderUnder(Rooted(root), parts, tenant);
      RenderUnder(Rooted(root), parts + [tenant], name);
      ChildIsWithin(Rooted(root), parts + [tenant], name);
    }
  }

  /** Rendered paths of two children tell tenants and names apart. */
  lemma ChildrenAreDistinct(rooted: bool, parts: seq<string>, tenant: string, name: string, tenant': string, name': string)
    requires Normal(rooted, parts + [tenant] + [name]) && Normal(rooted, parts + [tenant'] + [name'])
    requires RenderPath(rooted, parts + [tenant] + [name]) == RenderPath(rooted, parts + [tenant'] + [name'])
    ensures tenant == tenant' && name == name'
  {
    var full, full' := parts + [tenant] + [name], parts + [tenant'] + [name'];
    ComponentsOfRendered(rooted, full);
    ComponentsOfRendered(rooted, full');
    assert full[|parts|] == tenant && full'[|parts|] == tenant';
    assert full[|parts| + 1] == name && full'[|parts| + 1] == name';
  }

  lemma NamesAreDistinct(digest: string, mime: string, digest': string, mime': string)
    requires |digest| == 64 == |digest'| && FileName(digest, mime) == FileName(digest', mime')
    ensures digest == digest' && MediaExtension(mime) == MediaExtension(mime')
  {
    var name, name' := FileName(digest, mime), FileName(digest', mime');
    assert name[..64] == digest && name'[..64] == digest';
    assert name[64..] == MediaExtension(mime) && name'[64..] == MediaExtension(mime');
  }

  /** Two attachments share a path exactly when tenant, digest and suffix are all the same. */
  lemma PathsStayDistinct(
      root: string, tenant: string, id: string, digest: string, mime: string,
      tenant': string, id': string, digest': string, mime': string)
    requires HexDigest(digest) && HexDigest(digest')
    requires MediaPathFor(root, tenant, id, digest, mime).Some?
    requires MediaPathFor(root, tenant', id', digest', mime').Some?
    ensures MediaPathFor(root, tenant, id, digest, mime) == MediaPathFor(root, tenant', id', digest', mime')
            <==> tenant == tenant' && digest == digest' && MediaExtension(mime) == MediaExtension(mime')
  {
    var name, name' := FileName(digest, mime), FileName(digest', mime');
    NameIsOrdinary(digest, mime);
    NameIsOrdinary(digest', mime');
    SegmentIsOrdinary(tenant);
    SegmentIsOrdinary(tenant');
    PathComponents(root, tenant, name);
    PathComponents(root, tenant', name');
    if MediaPathFor(root, tenant, id, digest, mime) == MediaPathFor(root, tenant', id', digest', mime') {
      ChildrenAreDistinct(Rooted(root), Components(root), tenant, name, tenant', name');
      NamesAreDistinct(digest, mime, digest', mime');
    }
  }
}
