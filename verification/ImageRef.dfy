/** Normalisation of container image references (services/hangar/pure.go). */
module ImageRef {
  import opened Wrappers
  import opened GoStrings

  const HUB := "registry-1.docker.io"
  const TAG_VARIABLE := "${var.image_tag}"
  const DIGEST_PREFIX := "sha256:"

  datatype Image = Image(registry: string, repository: string, tag: string)

  /** strings.Index for one character; -1 if absent. */
  function FirstIndex(s: string, c: char): int {
    if s == [] then -1
    else if s[0] == c then 0
    else var k := FirstIndex(s[1..], c); if k < 0 then -1 else k + 1
  }

  /** strings.LastIndex for one character; -1 if absent. */
  function LastIndex(s: string, c: char): int {
    if s == [] then -1
    else if s[|s| - 1] == c then |s| - 1
    else LastIndex(s[..|s| - 1], c)
  }

  lemma {:induction false} FirstIndexLaw(s: string, c: char)
    ensures var k := FirstIndex(s, c);
            && -1 <= k < |s| && (k == -1 <==> c !in s)
            && (k >= 0 ==> s[k] == c && c !in s[..k])
  {
    if s != [] && s[0] != c {
      FirstIndexLaw(s[1..], c);
      var k := FirstIndex(s[1..], c);
      if k >= 0 {
        assert s[..k + 1] == [s[0]] + s[1..][..k];
      }
    }
  }

  lemma {:induction false} LastIndexLaw(s: string, c: char)
    ensures var k := LastIndex(s, c);
            && -1 <= k < |s| && (k == -1 <==> c !in s)
            && (k >= 0 ==> s[k] == c && c !in s[k + 1..])
  {
    if s != [] && s[|s| - 1] != c {
      var rest := s[..|s| - 1];
      LastIndexLaw(rest, c);
      var k := LastIndex(rest, c);
      assert s == rest + [s[|s| - 1]];
      if k >= 0 {
        assert s[k + 1..] == rest[k + 1..] + [s[|s| - 1]];
      }
    }
  }

  // ----- The parser -----

  /** Does the first path segment name a registry host? */
  predicate NamesRegistry(segment: string) {
    '.' in segment || ':' in segment || segment == "localhost"
  }

  predicate IsHubAlias(registry: string) {
    registry == "docker.io" || registry == "index.docker.io"
  }

  function SplitRegistryAndRepo(name: string): (string, string) {
    FirstIndexLaw(name, '/');
    var k := FirstIndex(name, '/');
    var (registry, repository) :=
      if k >= 0 then
        if NamesRegistry(name[..k]) then (name[..k], name[k + 1..]) else (HUB, name)
      else (HUB, "library/" + name);
    Normalized(registry, repository)
  }

  /** The last two steps of splitting: hub aliases, then the implicit library namespace. */
  function Normalized(registry: string, repository: string): (string, string) {
    var registry' := if IsHubAlias(registry) then HUB else registry;
    if registry' == HUB && '/' !in repository then (registry', "library/" + repository) else (registry', repository)
  }

  /** The name and the tag; `tag` is the digest if there was one. */
  function TagAndName(trimmed: string, tag: string): Result<(string, string)> {
    LastIndexLaw(trimmed, ':');
    var colon, slash := LastIndex(trimmed, ':'), LastIndex(trimmed, '/');
    if tag != "" then Ok((trimmed, tag))
    else if colon != -1 && colon > slash then
      var found := trimmed[colon + 1..];
      if found == "" || '/' in found then Err
      else Ok((trimmed[..colon], if found == TAG_VARIABLE then "latest" else found))
    else Ok((trimmed, "latest"))
  }

  function ParseNamed(name: string, tag: string): Result<Image> {
    match TagAndName(name, tag)
    case Err => Err
    case Ok((namePart, finalTag)) =>
      if namePart == "" then Err
      else
        var (registry, repository) := SplitRegistryAndRepo(namePart);
        if repository == "" then Err else Ok(Image(registry, repository, finalTag))
  }

  function ParseImageReference(ref: string): Result<Image> {
    var trimmed := TrimSpace(ref);
    if trimmed == "" then Err
    else if ' ' in trimmed then Err
    else
      FirstIndexLaw(trimmed, '@');
      var at := FirstIndex(trimmed, '@');
      if at != -1 then
        var digest := trimmed[at + 1..];
        if !(DIGEST_PREFIX <= digest) then Err else ParseNamed(trimmed[..at], digest)
      else ParseNamed(trimmed, "")
  }

  /** The canonical reference: registry/repository, then @digest or :tag. */
  function Print(image: Image): string {
    image.registry + "/" + image.repository + (if DIGEST_PREFIX <= image.tag then "@" else ":") + image.tag
  }

  // ----- What a parse can produce -----

  ghost predicate Plain(s: string) {
    ' ' !in s && '@' !in s
  }

  ghost predicate CanonicalRegistry(registry: string) {
    && Plain(registry) && '/' !in registry && NamesRegistry(registry) && !IsHubAlias(registry)
    && registry != "" && !IsSpace(registry[0])
  }

  ghost predicate CanonicalRepository(registry: string, repository: string) {
    repository != "" && Plain(repository) && (registry == HUB ==> '/' in repository)
  }

  ghost predicate CanonicalTag(tag: string) {
    && tag != "" && ' ' !in tag && !IsSpace(tag[|tag| - 1])
    && (DIGEST_PREFIX <= tag || (':' !in tag && '/' !in tag && '@' !in tag && tag != TAG_VARIABLE))
  }

  /** The triples in normal form. */
  ghost predicate Canonical(image: Image) {
    CanonicalRegistry(image.registry) && CanonicalRepository(image.registry, image.repository) &&
      CanonicalTag(image.tag)
  }

  lemma HubIsCanonical()
    ensures CanonicalRegistry(HUB)
  {
    assert HUB[10] == '.';
  }

  lemma PartsArePlain(s: string, k: nat)
    requires Plain(s) && k <= |s|
    ensures Plain(s[..k]) && Plain(s[k..])
  {
  }

  lemma LibraryIsPlain(s: string)
    requires Plain(s)
    ensures Plain("library/" + s) && '/' in "library/" + s && "library/" + s != ""
  {
    var library := "library/";
    assert Plain(library) && library[7] == '/';
    assert (library + s)[7] == '/';
    assert forall c :: c in library + s <==> c in library || c in s;
  }

  lemma NormalizedIsCanonical(registry: string, repository: string)
    requires Plain(registry) && '/' !in registry && NamesRegistry(registry) && registry != "" && !IsSpace(registry[0])
    requires Plain(repository)
    ensures var (r, p) := Normalized(registry, repository);
            CanonicalRegistry(r) && (p != "" ==> CanonicalRepository(r, p))
  {
    HubIsCanonical();
    LibraryIsPlain(repository);
  }

  lemma SplitIsCanonical(name: string)
    requires name != "" && Plain(name) && !IsSpace(name[0])
    ensures var (registry, repository) := SplitRegistryAndRepo(name);
            CanonicalRegistry(registry) && (repository != "" ==> CanonicalRepository(registry, repository))
  {
    FirstIndexLaw(name, '/');
    HubIsCanonical();
    var k := FirstIndex(name, '/');
    if k >= 0 && NamesRegistry(name[..k]) {
      PartsArePlain(name, k);
      PartsArePlain(name, k + 1);
      assert name[..k] != "";
      NormalizedIsCanonical(name[..k], name[k + 1..]);
    } else if k >= 0 {
      NormalizedIsCanonical(HUB, name);
    } else {
      LibraryIsPlain(name);
      NormalizedIsCanonical(HUB, "library/" + name);
    }
  }

  lemma LatestIsCanonical()
    ensures CanonicalTag("latest")
  {
    var latest := "latest";
    assert |latest| == 6 && latest[5] == 't' && |TAG_VARIABLE| == 16;
    assert ':' !in latest && '/' !in latest && '@' !in latest && ' ' !in latest;
  }

  lemma FoundIsCanonical(trimmed: string, k: nat)
    requires k < |trimmed| && ' ' !in trimmed && '@' !in trimmed && !IsSpace(trimmed[|trimmed| - 1])
    requires var found := trimmed[k..]; ':' !in found && '/' !in found && found != TAG_VARIABLE
    ensures CanonicalTag(trimmed[k..])
  {
    var found := trimmed[k..];
    assert found[|found| - 1] == trimmed[|trimmed| - 1];
    assert forall c :: c in found ==> c in trimmed;
  }

  lemma TagIsCanonical(trimmed: string, digest: string)
    requires trimmed != "" && ' ' !in trimmed && !IsSpace(trimmed[|trimmed| - 1])
    requires digest == "" && '@' !in trimmed
    ensures var r := TagAndName(trimmed, digest);
            r.Ok? ==> CanonicalTag(r.value.1) && r.value.0 <= trimmed
  {
    LastIndexLaw(trimmed, ':');
    LatestIsCanonical();
    var colon, slash := LastIndex(trimmed, ':'), LastIndex(trimmed, '/');
    if colon != -1 && colon > slash {
      var found := trimmed[colon + 1..];
      if found != "" && '/' !in found && found != TAG_VARIABLE {
        FoundIsCanonical(trimmed, colon + 1);
      }
    }
  }

  /** Every successful parse is in normal form. */
  lemma {:induction false} ParsedIsCanonical(ref: string)
    requires ParseImageReference(ref).Ok?
    ensures Canonical(ParseImageReference(ref).value)
  {
    var trimmed := TrimSpace(ref);
    TrimSpaceTrims(ref);
    FirstIndexLaw(trimmed, '@');
    var at := FirstIndex(trimmed, '@');
    if at != -1 {
      var name, digest := trimmed[..at], trimmed[at + 1..];
      assert digest != [] && digest[|digest| - 1] == trimmed[|trimmed| - 1];
      assert forall c :: c in digest ==> c in trimmed;
      assert forall c :: c in name ==> c in trimmed;
      assert name != "" ==> name[0] == trimmed[0];
      if name != "" {
        SplitIsCanonical(name);
      }
    } else {
      TagIsCanonical(trimmed, "");
      var name := TagAndName(trimmed, "").value.0;
      assert forall c :: c in name ==> c in trimmed;
      if name != "" {
        assert name[0] == trimmed[0];
        SplitIsCanonical(name);
      }
    }
  }

  // ----- Reparsing the canonical form -----

  lemma {:induction false} FirstIndexAt(a: string, c: char, b: string)
    requires c !in a
    ensures FirstIndex(a + [c] + b, c) == |a|
  {
    if a != [] {
      assert a[0] in a && c !in a[1..];
      FirstIndexAt(a[1..], c, b);
      assert (a + [c] + b)[1..] == a[1..] + [c] + b;
    }
  }

  lemma {:induction false} LastIndexBefore(a: string, b: string, c: char)
    requires c !in b
    ensures LastIndex(a + b, c) < |a|
    decreases |b|
  {
    if b == [] {
      LastIndexLaw(a, c);
      assert a + b == a;
    } else {
      var b' := b[..|b| - 1];
      assert b[|b| - 1] in b && c !in b';
      assert (a + b)[..|a + b| - 1] == a + b';
      LastIndexBefore(a, b', c);
    }
  }

  lemma LastIndexAt(a: string, c: char, b: string)
    requires c !in b
    ensures LastIndex(a + [c] + b, c) == |a|
  {
    var s := a + [c] + b;
    LastIndexLaw(s, c);
    assert s[|a|] == c;
    var k := LastIndex(s, c);
    assert s[|a| + 1..] == b;
  }

  lemma SplitOfCanonical(registry: string, repository: string)
    requires CanonicalRegistry(registry) && CanonicalRepository(registry, repository)
    ensures SplitRegistryAndRepo(registry + "/" + repository) == (registry, repository)
  {
    var name := registry + "/" + repository;
    FirstIndexLaw(name, '/');
    FirstIndexAt(registry, '/', repository);
    assert name[..|registry|] == registry && name[|registry| + 1..] == repository;
  }

  lemma TagOfCanonical(name: string, tag: string)
    requires CanonicalTag(tag) && !(DIGEST_PREFIX <= tag)
    ensures TagAndName(name + ":" + tag, "") == Ok((name, tag))
  {
    var s := name + ":" + tag;
    LastIndexLaw(s, ':');
    LastIndexLaw(s, '/');
    LastIndexAt(name, ':', tag);
    assert s[|name| + 1..] == tag && s[..|name|] == name;
    assert s == name + (":" + tag);
    LastIndexBefore(name, ":" + tag, '/');
  }

  lemma CanonicalText(image: Image)
    requires Canonical(image)
    ensures var text := Print(image);
            && text != "" && ' ' !in text && Trimmed(text)
            && text[|text| - 1] == image.tag[|image.tag| - 1]
  {
    var text := Print(image);
    assert text[0] == image.registry[0];
    assert text[|text| - 1] == image.tag[|image.tag| - 1];
  }

  lemma NamedOfCanonical(image: Image, name: string)
    requires Canonical(image) && name == image.registry + "/" + image.repository
    ensures DIGEST_PREFIX <= image.tag ==> ParseNamed(name, image.tag) == Ok(image)
    ensures !(DIGEST_PREFIX <= image.tag) ==> ParseNamed(name + ":" + image.tag, "") == Ok(image)
  {
    SplitOfCanonical(image.registry, image.repository);
    if !(DIGEST_PREFIX <= image.tag) {
      TagOfCanonical(name, image.tag);
    }
  }

  /** A triple in normal form is what its canonical reference parses to. */
  lemma {:induction false} CanonicalReparses(image: Image)
    requires Canonical(image)
    ensures ParseImageReference(Print(image)) == Ok(image)
  {
    var text := Print(image);
    var name := image.registry + "/" + image.repository;
    CanonicalText(image);
    TrimSpaceTrims(text);
    NamedOfCanonical(image, name);
    NameIsPlain(image, name);
    FirstIndexLaw(text, '@');
    if DIGEST_PREFIX <= image.tag {
      assert text == name + ['@'] + image.tag;
      FirstIndexAt(name, '@', image.tag);
      assert text[|name| + 1..] == image.tag && text[..|name|] == name;
    } else {
      assert text == name + ":" + image.tag;
      assert '@' !in text;
    }
  }

  lemma NameIsPlain(image: Image, name: string)
    requires Canonical(image) && name == image.registry + "/" + image.repository
    ensures '@' !in name
  {
  }

  // ----- What short references mean -----

  /** The text carries no tag and no digest: no @, and no colon after the last slash. */
  ghost predicate Untagged(s: string) {
    && s != "" && Plain(s) && Trimmed(s)
    && forall i :: 0 <= i < |s| && s[i] == ':' ==> exists j :: i < j < |s| && s[j] == '/'
  }

  lemma {:induction false} LastIndexIsLast(s: string, c: char, j: nat)
    requires j < |s| && s[j] == c
    ensures j <= LastIndex(s, c)
  {
    if s[|s| - 1] != c {
      LastIndexIsLast(s[..|s| - 1], c, j);
    }
  }

  lemma NoTagFound(s: string)
    requires Untagged(s)
    ensures TagAndName(s, "") == Ok((s, "latest"))
  {
    LastIndexLaw(s, ':');
    var colon := LastIndex(s, ':');
    if colon != -1 {
      var j :| colon < j < |s| && s[j] == '/';
      LastIndexIsLast(s, '/', j);
    }
  }

  /** Without a tag the reference means the tag "latest". */
  lemma UntaggedIsLatest(s: string)
    requires Untagged(s)
    ensures var (registry, repository) := SplitRegistryAndRepo(s);
            ParseImageReference(s) == if repository == "" then Err else Ok(Image(registry, repository, "latest"))
  {
    TrimSpaceTrims(s);
    FirstIndexLaw(s, '@');
    NoTagFound(s);
  }

  ghost predicate IsTag(tag: string) {
    tag != "" && Plain(tag) && ':' !in tag && '/' !in tag && !IsSpace(tag[|tag| - 1])
  }

  lemma TagOfTagged(s: string, tag: string)
    requires IsTag(tag)
    ensures TagAndName(s + ":" + tag, "") == Ok((s, if tag == TAG_VARIABLE then "latest" else tag))
  {
    var text := s + ":" + tag;
    LastIndexLaw(text, ':');
    LastIndexAt(s, ':', tag);
    assert text == s + (":" + tag);
    LastIndexBefore(s, ":" + tag, '/');
    assert text[|s| + 1..] == tag && text[..|s|] == s;
  }

  lemma TaggedText(s: string, tag: string)
    requires Untagged(s) && IsTag(tag)
    ensures var text := s + ":" + tag; text != "" && Plain(text) && Trimmed(text)
  {
    var text := s + ":" + tag;
    assert text[0] == s[0] && text[|text| - 1] == tag[|tag| - 1];
  }

  /** A tag after the name is the tag, apart from the variable of the job files, which stands for "latest". */
  lemma TaggedHasItsTag(s: string, tag: string)
    requires Untagged(s) && IsTag(tag) && ParseImageReference(s).Ok?
    ensures ParseImageReference(s + ":" + tag) ==
            Ok(ParseImageReference(s).value.(tag := if tag == "${var.image_tag}" then "latest" else tag))
  {
    var text := s + ":" + tag;
    UntaggedIsLatest(s);
    TaggedText(s, tag);
    TrimSpaceTrims(text);
    FirstIndexLaw(text, '@');
    TagOfTagged(s, tag);
  }

  /** `redis` is the hub's library/redis. */
  lemma BareNames(s: string)
    requires Untagged(s) && '/' !in s
    ensures ParseImageReference(s) == Ok(Image("registry-1.docker.io", "library/" + s, "latest"))
  {
    FirstIndexLaw(s, '/');
    LibraryIsPlain(s);
    UntaggedIsLatest(s);
  }

  /** `grafana/grafana` is the hub's; `ghcr.io/a/b`, `host:5000/b` and `localhost/b` name their registry, and
      the hub's aliases mean the hub. */
  lemma QualifiedNames(first: string, rest: string)
    requires Untagged(first + "/" + rest) && '/' !in first && rest != ""
    ensures var s := first + "/" + rest;
            var host := '.' in first || ':' in first || first == "localhost";
            var hub := first == "docker.io" || first == "index.docker.io" || first == "registry-1.docker.io";
            ParseImageReference(s) ==
            if !host then Ok(Image("registry-1.docker.io", s, "latest"))
            else if !hub then Ok(Image(first, rest, "latest"))
            else Ok(Image("registry-1.docker.io", if '/' in rest then rest else "library/" + rest, "latest"))
  {
    SplitOfQualified(first, rest);
    UntaggedIsLatest(first + "/" + rest);
  }

  lemma SplitOfQualified(first: string, rest: string)
    requires '/' !in first
    ensures SplitRegistryAndRepo(first + "/" + rest) ==
            if NamesRegistry(first) then Normalized(first, rest) else (HUB, first + "/" + rest)
  {
    var s := first + "/" + rest;
    FirstIndexLaw(s, '/');
    FirstIndexAt(first, '/', rest);
    assert s[..|first|] == first && s[|first| + 1..] == rest && s[|first|] == '/';
  }

  /** Normalisation is idempotent: printing a successful parse and parsing again gives the same triple. */
  lemma {:induction false} NormalizationIsIdempotent(ref: string)
    requires ParseImageReference(ref).Ok?
    ensures ParseImageReference(Print(ParseImageReference(ref).value)) == ParseImageReference(ref)
  {
    ParsedIsCanonical(ref);
    CanonicalReparses(ParseImageReference(ref).value);
  }

  /** The triples that some reference parses to are exactly those in normal form. */
  lemma {:induction false} CanonicalIffParsed(image: Image)
    ensures Canonical(image) <==> exists ref :: ParseImageReference(ref) == Ok(image)
  {
    if Canonical(image) {
      CanonicalReparses(image);
    }
    if ref :| ParseImageReference(ref) == Ok(image) {
      ParsedIsCanonical(ref);
    }
  }
}
