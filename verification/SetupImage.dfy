/** The setup command that the ESDiag image named in the local stack understands. */
module SetupImage {
  import opened Text

  /** A semantic version: enough of it to tell releases before 0.18, and its precedence. */
  datatype Version = Version(major: nat, minor: nat, precedence: real)

  /** Reads a text as SemVer 2.0.0 does; precedence follows section 11. */
  type SemVer = string -> Option<Version>

  datatype Command = Setup | SetupEnv

  function Reference(image: string): string {
    match IndexOf(image, '@')
    case None => image
    case Some(i) => image[..i]
  }

  function Tag(reference: string): Option<string> {
    match LastIndexOf(reference, ':')
    case None => None
    case Some(i) => if '/' in reference[i + 1..] then None else Some(reference[i + 1..])
  }

  predicate BeforeSetupEnv(version: Version) {
    version.major == 0 && version.minor < 18
  }

  function CommandForImage(semver: SemVer, image: string): Command {
    match Tag(Reference(image))
    case None => SetupEnv
    case Some(tag) =>
      match semver(tag)
      case None => SetupEnv
      case Some(version) => if BeforeSetupEnv(version) then Setup else SetupEnv
  }

  predicate IsTagged(image: string, name: string, tag: string, digest: Option<string>) {
    && '@' !in name && '@' !in tag && ':' !in tag && '/' !in tag
    && match digest
       case None => image == name + ":" + tag
       case Some(d) => image == name + ":" + tag + "@" + d
  }

  /** An image with a tag, and with or without a digest. */
  ghost predicate Tagged(image: string, tag: string) {
    exists name, digest :: IsTagged(image, name, tag, digest)
  }

  lemma TagIsFound(name: string, tag: string)
    requires ':' !in tag && '/' !in tag
    ensures Tag(name + ":" + tag) == Some(tag)
  {
    var reference := name + ":" + tag;
    LastIndexOfAfter(name, ':', tag);
    assert reference == name + [':'] + tag;
    assert reference[|name| + 1..] == tag;
  }

  lemma ReferenceIsFound(reference: string, digest: string)
    requires '@' !in reference
    ensures Reference(reference) == reference
    ensures Reference(reference + "@" + digest) == reference
  {
    IndexOfFirst(reference, '@', digest);
    assert reference + "@" + digest == reference + ['@'] + digest;
  }

  lemma PartsOfReference(reference: string, tag: string) returns (name: string)
    requires Tag(reference) == Some(tag)
    ensures ':' !in tag && '/' !in tag && reference == name + ":" + tag
  {
    LastIndexOfNone(reference, ':');
    var i := LastIndexOf(reference, ':').value;
    name := reference[..i];
    assert reference == reference[..i] + [':'] + reference[i + 1..];
  }

  lemma PartsOfImage(image: string) returns (digest: Option<string>)
    ensures '@' !in Reference(image)
    ensures match digest
            case None => image == Reference(image)
            case Some(d) => image == Reference(image) + "@" + d
  {
    match IndexOf(image, '@')
    case None => digest := None;
    case Some(i) =>
      NothingBeforeIndexOf(image, '@');
      digest := Some(image[i + 1..]);
      assert image == image[..i] + ['@'] + image[i + 1..];
  }

  lemma TaggedExactly(image: string, tag: string)
    ensures Tag(Reference(image)) == Some(tag) <==> Tagged(image, tag)
  {
    if Tagged(image, tag) {
      var name, digest :| IsTagged(image, name, tag, digest);
      ReferenceIsFound(name + ":" + tag, digest.GetOr(""));
      TagIsFound(name, tag);
    }
    if Tag(Reference(image)) == Some(tag) {
      var digest := PartsOfImage(image);
      var name := PartsOfReference(Reference(image), tag);
      PiecesWithout(name + ":", tag, '@');
      PiecesWithout(name, ":", '@');
      assert IsTagged(image, name, tag, digest);
    }
  }

  lemma PiecesWithout(a: string, b: string, c: char)
    requires c !in a + b
    ensures c !in a && c !in b
  {
    assert forall x <- a :: x in a + b;
    assert forall x <- b :: x in a + b;
  }

  /** The bare command is chosen exactly for images whose tag, whatever the digest, is a version before 0.18. */
  lemma BareSetupExactly(semver: SemVer, image: string)
    ensures CommandForImage(semver, image) == Setup <==>
              exists tag :: Tagged(image, tag) && semver(tag).Some?
                            && semver(tag).value.major == 0 && semver(tag).value.minor <= 17
  {
    if CommandForImage(semver, image) == Setup {
      TaggedExactly(image, Tag(Reference(image)).value);
    }
    if tag :| Tagged(image, tag) && semver(tag).Some? && BeforeSetupEnv(semver(tag).value) {
      TaggedExactly(image, tag);
    }
  }

  /** The port of a registry is not a tag. */
  lemma PortIsNotATag(semver: SemVer, host: string, path: string)
    requires '@' !in host && '@' !in path && ':' !in path && '/' in path
    ensures CommandForImage(semver, host + ":" + path) == SetupEnv
  {
    var image := host + ":" + path;
    ReferenceIsFound(image, "");
    LastIndexOfAfter(host, ':', path);
    assert image == host + [':'] + path;
    assert image[|host| + 1..] == path;
  }
}
