/** The arm64 capability probe of internal/images/images.go.

    `CheckLinuxArm64Support` runs four calls of the containers/image library
    in a row (parse the reference, open the image source, parse the manifest,
    inspect the image), stops at the first that fails and otherwise compares
    the inspected architecture with "arm64". The library's internals are not
    part of this model: each call is a field of `Library`, an arbitrary
    function from its inputs to success or failure.

    `CheckLatestLinuxArm64Support` rewrites the name to the `latest` tag
    first: it keeps the text before the first colon, appends ":latest" and
    rejects a name without any colon. */
module Images {
  import opened Wrappers
  import opened Strings

  /** The text of an error returned by the library; wrapped, not inspected. */
  type Cause = string

  /** One constructor per error the probe itself returns. */
  datatype CheckError =
    | InvalidImageName                  // rewrite: the name has no colon
    | ParsingImageName(cause: Cause)    // alltransports.ParseImageName failed
    | GettingImageSource(cause: Cause)  // ref.NewImageSource failed
    | ParsingManifest(cause: Cause)     // image.FromUnparsedImage failed
    | InspectingImage(cause: Cause)     // img.Inspect failed

  /** Go's `(bool, error)` result: `err` is `None` where Go returns nil. */
  datatype Verdict = Verdict(supported: bool, err: Option<CheckError>)

  /** The fields of `types.SystemContext` that the probe sets. */
  datatype SystemContext = SystemContext(
    architectureChoice: string,
    osChoice: string,
    dockerCompatAuthFilePath: string)

  /** The fields of `types.ImageInspectInfo` the probe can see. */
  datatype InspectInfo = InspectInfo(architecture: string, os: string)

  /** The library calls, as opaque functions over an image reference type
      `Ref`, an image source type `Src` and an image type `Img`. */
  datatype Library<!Ref, !Src, !Img> = Library(
    parseImageName: string -> Result<Ref, Cause>,
    newImageSource: (Ref, SystemContext) -> Result<Src, Cause>,
    fromUnparsedImage: (SystemContext, Src) -> Result<Img, Cause>,
    inspect: Img -> Result<InspectInfo, Cause>)

  const DockerTransport: string := "docker://"
  const LatestSuffix: string := ":latest"

  /** The transport-qualified name handed to the reference parser. */
  function TransportReference(imgName: string): (t: string)
    ensures |t| == |DockerTransport| + |imgName|
    ensures t[..|DockerTransport|] == DockerTransport
    ensures t[|DockerTransport|..] == imgName
  {
    DockerTransport + imgName
  }

  /** The system context of the probe: linux/arm64, with the caller's
      Docker credentials file. */
  function Arm64LinuxContext(authFilePath: string): (sys: SystemContext)
    ensures IsProbeContext(sys, authFilePath)
  {
    SystemContext("arm64", "linux", authFilePath)
  }

  /** True of every context the probe may hand to the library. */
  predicate IsProbeContext(sys: SystemContext, authFilePath: string) {
    && sys.architectureChoice == "arm64"
    && sys.osChoice == "linux"
    && sys.dockerCompatAuthFilePath == authFilePath
  }

  /** `CheckLinuxArm64Support`, with the result of `getDockerConfigPath`
      passed in as `authFilePath`. */
  function CheckLinuxArm64Support<Ref, Src, Img>(
    imgName: string, authFilePath: string, lib: Library<Ref, Src, Img>): (v: Verdict)
    ensures v.supported ==> v.err == None
    ensures v.err != Some(InvalidImageName)
  {
    var sys := Arm64LinuxContext(authFilePath);
    match lib.parseImageName(TransportReference(imgName))
    case Failure(e) => Verdict(false, Some(ParsingImageName(e)))
    case Success(ref) =>
      match lib.newImageSource(ref, sys)
      case Failure(e) => Verdict(false, Some(GettingImageSource(e)))
      case Success(src) =>
        match lib.fromUnparsedImage(sys, src)
        case Failure(e) => Verdict(false, Some(ParsingManifest(e)))
        case Success(img) =>
          match lib.inspect(img)
          case Failure(e) => Verdict(false, Some(InspectingImage(e)))
          case Success(info) => Verdict(info.architecture == "arm64", None)
  }

  /** The `latest`-tag rewrite: a name without a colon is rejected; otherwise
      the result is the colon-free prefix that runs up to the first colon of
      the name, followed by ":latest". */
  function LatestName(imgName: string): (r: Result<string, CheckError>)
    ensures r.Failure? <==> ':' !in imgName
    ensures r.Failure? ==> r.error == InvalidImageName
    ensures r.Success? ==>
              && |r.value| >= |LatestSuffix|
              && var p := r.value[..|r.value| - |LatestSuffix|];
              && r.value[|p|..] == LatestSuffix
              && p <= imgName
              && ':' !in p
              && imgName[|p|] == ':'
  {
    var split := Split(imgName, ':');
    SplitLength(imgName, ':');
    SplitHead(imgName, ':');
    if |split| < 2 then Failure(InvalidImageName)
    else
      var r := split[0] + LatestSuffix;
      assert r[..|r| - |LatestSuffix|] == split[0];
      Success(r)
  }

  /** `CheckLatestLinuxArm64Support`. */
  function CheckLatestLinuxArm64Support<Ref, Src, Img>(
    imgName: string, authFilePath: string, lib: Library<Ref, Src, Img>): (v: Verdict)
    ensures v.supported ==> v.err == None
    ensures v.err == Some(InvalidImageName) <==> ':' !in imgName
  {
    match LatestName(imgName)
    case Failure(e) => Verdict(false, Some(e))
    case Success(latest) => CheckLinuxArm64Support(latest, authFilePath, lib)
  }

  // ---------------------------------------------------------------------
  // The tag rewrite

  /** A rewritten name ends in ":latest" and holds exactly one colon, the one
      that starts the suffix. */
  lemma LatestNameShape(imgName: string)
    requires LatestName(imgName).Success?
    ensures var r := LatestName(imgName).value;
            && |r| >= |LatestSuffix|
            && r[|r| - |LatestSuffix|..] == LatestSuffix
            && Count(r, ':') == 1
  {
    var r := LatestName(imgName).value;
    var p := r[..|r| - |LatestSuffix|];
    assert r == p + LatestSuffix;
    CountAppend(p, LatestSuffix, ':');
    CountZero(p, ':');
    assert LatestSuffix == [':'] + "latest";
    CountAppend([':'], "latest", ':');
    CountZero("latest", ':');
  }

  /** Everything after the first colon is discarded, be it a tag, a registry
      port, a path or a digest. */
  lemma LatestNameDiscardsTail(p: string, tail: string)
    requires ':' !in p
    ensures LatestName(p + [':'] + tail) == Success(p + LatestSuffix)
  {
    SplitHeadOfFreePrefix(p, ':', tail);
  }

  /** Rewriting an already rewritten name changes nothing. */
  lemma LatestNameIdempotent(imgName: string)
    requires LatestName(imgName).Success?
    ensures LatestName(LatestName(imgName).value) == LatestName(imgName)
  {
    var r := LatestName(imgName).value;
    var p := r[..|r| - |LatestSuffix|];
    assert r == p + [':'] + "latest";
    LatestNameDiscardsTail(p, "latest");
  }

  /** A registry port is mistaken for the tag: whatever the path, a name on
      registry `host:5000` collapses to the registry host. */
  lemma LatestNameOfRegistryWithPort(path: string)
    ensures LatestName("host:5000/" + path) == Success("host:latest")
  {
    assert "host:5000/" + path == "host" + [':'] + ("5000/" + path);
    LatestNameDiscardsTail("host", "5000/" + path);
    assert "host" + LatestSuffix == "host:latest";
  }

  /** A digest reference is rewritten at the colon inside the digest. */
  lemma LatestNameOfDigest(digest: string)
    ensures LatestName("nginx@sha256:" + digest) == Success("nginx@sha256:latest")
  {
    assert "nginx@sha256:" + digest == "nginx@sha256" + [':'] + digest;
    LatestNameDiscardsTail("nginx@sha256", digest);
    assert "nginx@sha256" + LatestSuffix == "nginx@sha256:latest";
  }

  /** The empty name and a name without a tag are rejected. */
  lemma LatestNameRejectsUntagged()
    ensures LatestName("") == Failure(InvalidImageName)
    ensures LatestName("nginx") == Failure(InvalidImageName)
  {
  }

  // ---------------------------------------------------------------------
  // The probe

  /** The probe reports support exactly when every library call succeeds and
      the inspected architecture is "arm64"; it then returns no error. */
  lemma CheckSupportedIff<Ref, Src, Img>(
    imgName: string, authFilePath: string, lib: Library<Ref, Src, Img>)
    ensures CheckLinuxArm64Support(imgName, authFilePath, lib) == Verdict(true, None)
        <==> exists ref: Ref, src: Src, img: Img ::
              && lib.parseImageName(DockerTransport + imgName) == Success(ref)
              && lib.newImageSource(ref, Arm64LinuxContext(authFilePath)) == Success(src)
              && lib.fromUnparsedImage(Arm64LinuxContext(authFilePath), src) == Success(img)
              && lib.inspect(img).Success?
              && lib.inspect(img).value.architecture == "arm64"
  {
    var v := CheckLinuxArm64Support(imgName, authFilePath, lib);
    var sys := Arm64LinuxContext(authFilePath);
    if v == Verdict(true, None) {
      match lib.parseImageName(TransportReference(imgName))
      case Success(ref) =>
        match lib.newImageSource(ref, sys)
        case Success(src) =>
          match lib.fromUnparsedImage(sys, src)
          case Success(img) =>
            assert lib.inspect(img).Success? && lib.inspect(img).value.architecture == "arm64";
    }
  }

  /** The probe fails exactly when some library call fails, and then reports
      the first failing call with its cause. */
  lemma CheckErrorIsFirstFailure<Ref, Src, Img>(
    imgName: string, authFilePath: string, lib: Library<Ref, Src, Img>)
    ensures var v := CheckLinuxArm64Support(imgName, authFilePath, lib);
            var sys := Arm64LinuxContext(authFilePath);
            var parsed := lib.parseImageName(DockerTransport + imgName);
            && (parsed.Failure? ==> v == Verdict(false, Some(ParsingImageName(parsed.error))))
            && (parsed.Success? ==>
                  var source := lib.newImageSource(parsed.value, sys);
                  && (source.Failure? ==> v == Verdict(false, Some(GettingImageSource(source.error))))
                  && (source.Success? ==>
                        var image := lib.fromUnparsedImage(sys, source.value);
                        && (image.Failure? ==> v == Verdict(false, Some(ParsingManifest(image.error))))
                        && (image.Success? ==>
                              var info := lib.inspect(image.value);
                              && (info.Failure? ==> v == Verdict(false, Some(InspectingImage(info.error))))
                              && (info.Success? ==> v.err == None))))
  {
  }

  /** The operating system reported by `Inspect` is not compared: a library
      that reports the same architectures (and the same failures) gives the
      same verdict. */
  lemma CheckIgnoresOs<Ref, Src, Img>(
    imgName: string, authFilePath: string, lib: Library<Ref, Src, Img>,
    inspect: Img -> Result<InspectInfo, Cause>)
    requires forall img :: SameArchitecture(inspect(img), lib.inspect(img))
    ensures CheckLinuxArm64Support(imgName, authFilePath, lib.(inspect := inspect))
         == CheckLinuxArm64Support(imgName, authFilePath, lib)
  {
    var sys := Arm64LinuxContext(authFilePath);
    match lib.parseImageName(TransportReference(imgName))
    case Failure(_) =>
    case Success(ref) =>
      match lib.newImageSource(ref, sys)
      case Failure(_) =>
      case Success(src) =>
        match lib.fromUnparsedImage(sys, src)
        case Failure(_) =>
        case Success(img) =>
          assert SameArchitecture(inspect(img), lib.inspect(img));
  }

  /** Two inspection results that agree on everything but the OS. */
  predicate SameArchitecture(a: Result<InspectInfo, Cause>, b: Result<InspectInfo, Cause>) {
    || (a.Failure? && b.Failure? && a.error == b.error)
    || (a.Success? && b.Success? && a.value.architecture == b.value.architecture)
  }

  /** The reference parser is consulted only on "docker://" followed by the
      name: a parser that agrees there gives the same verdict. */
  lemma CheckParsesTransportReference<Ref, Src, Img>(
    imgName: string, authFilePath: string, lib: Library<Ref, Src, Img>,
    parse: string -> Result<Ref, Cause>)
    requires parse(DockerTransport + imgName) == lib.parseImageName(DockerTransport + imgName)
    ensures CheckLinuxArm64Support(imgName, authFilePath, lib.(parseImageName := parse))
         == CheckLinuxArm64Support(imgName, authFilePath, lib)
  {
    var lib' := lib.(parseImageName := parse);
    assert lib'.newImageSource == lib.newImageSource;
    assert lib'.fromUnparsedImage == lib.fromUnparsedImage;
    assert lib'.inspect == lib.inspect;
  }

  /** The image source and the manifest parser are only ever given the
      linux/arm64 context with the caller's credentials file. The context is
      a value here: the library is taken not to change it between calls. */
  lemma CheckUsesProbeContext<Ref, Src, Img>(
    imgName: string, authFilePath: string, lib: Library<Ref, Src, Img>,
    newImageSource: (Ref, SystemContext) -> Result<Src, Cause>,
    fromUnparsedImage: (SystemContext, Src) -> Result<Img, Cause>)
    requires forall ref, sys :: IsProbeContext(sys, authFilePath) ==>
               newImageSource(ref, sys) == lib.newImageSource(ref, sys)
    requires forall sys, src :: IsProbeContext(sys, authFilePath) ==>
               fromUnparsedImage(sys, src) == lib.fromUnparsedImage(sys, src)
    ensures CheckLinuxArm64Support(imgName, authFilePath,
              lib.(newImageSource := newImageSource, fromUnparsedImage := fromUnparsedImage))
         == CheckLinuxArm64Support(imgName, authFilePath, lib)
  {
    var sys := Arm64LinuxContext(authFilePath);
    assert IsProbeContext(sys, authFilePath);
    match lib.parseImageName(TransportReference(imgName))
    case Failure(_) =>
    case Success(ref) =>
      assert newImageSource(ref, sys) == lib.newImageSource(ref, sys);
      match lib.newImageSource(ref, sys)
      case Failure(_) =>
      case Success(src) =>
        assert fromUnparsedImage(sys, src) == lib.fromUnparsedImage(sys, src);
  }

  // ---------------------------------------------------------------------
  // The probe of the latest tag

  /** A name without a colon (the empty name included) is rejected before any
      library call: the verdict is the same whatever the library does. */
  lemma CheckLatestRejectsUntagged<Ref, Src, Img>(
    imgName: string, authFilePath: string, lib: Library<Ref, Src, Img>)
    requires ':' !in imgName
    ensures CheckLatestLinuxArm64Support(imgName, authFilePath, lib)
         == Verdict(false, Some(InvalidImageName))
  {
  }

  /** A tagged name is probed as its prefix up to the first colon with the
      `latest` tag, whatever came after that colon. */
  lemma CheckLatestProbesLatest<Ref, Src, Img>(
    p: string, tail: string, authFilePath: string, lib: Library<Ref, Src, Img>)
    requires ':' !in p
    ensures CheckLatestLinuxArm64Support(p + [':'] + tail, authFilePath, lib)
         == CheckLinuxArm64Support(p + ":latest", authFilePath, lib)
  {
    LatestNameDiscardsTail(p, tail);
  }
}
