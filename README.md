# kubearchinspect: the arm64 image probe

This project models `internal/images/images.go` of kubearchinspect, the part
of the tool that decides whether a container image has a linux/arm64 variant.
It has two entry points:

- `CheckLinuxArm64Support(imgName)` prefixes the name with `docker://` and
  hands it to the containers/image reference parser. It then opens the image
  source with a system context that asks for linux/arm64 and uses the user's
  Docker credentials file. Next it parses the manifest and inspects the image.
  The first call that fails ends the probe with `false` and a wrapped error.
  Otherwise the verdict is whether the inspected architecture equals `"arm64"`,
  with no error.
- `CheckLatestLinuxArm64Support(imgName)` first rewrites the name to the
  `latest` tag. It splits the name on `:`. A name with no colon is rejected
  with `invalid image name`. Otherwise it probes the first piece followed by
  `:latest`.

The library calls cannot be seen from this file. So they are modelled as the
four function-typed fields of `Images.Library`. Each field maps its inputs to
success or to a failure cause. Beyond that, each call is assumed to be
deterministic and to leave the system context unchanged (see "## Left out"). Go's
`(bool, error)` result is `Images.Verdict`. The error is an `Option` of
`Images.CheckError`, with one constructor for each place the probe returns
an error. Go's `strings.Index`, `strings.Split` and `strings.Join` for a
one-character separator are modelled in module `Strings`. Module `Wrappers`
holds `Option` and `Result`.

Three consequences of the code are worth stating:

- Reference normalisation and manifest-list selection happen inside
  containers/image, steered by the system context, so they belong to the
  opaque library calls. The platform is fixed to linux/arm64, as in the code.
- The rewrite cuts at the first colon, so a registry port
  (`host:5000/app:1.2`) or a digest (`nginx@sha256:<digest>`) is cut there
  too. The lemmas `LatestNameOfRegistryWithPort` and `LatestNameOfDigest`
  state what happens.
- The final verdict compares only the architecture; the inspected OS is not
  looked at (`CheckIgnoresOs`).

## Model

| member | source | states |
|---|---|---|
| Strings.Index | internal/images/images.go:72 | the result is -1 exactly when the separator is absent; otherwise the separator is at that position and not before it |
| Strings.Split | internal/images/images.go:72 | a split always has at least one piece and no piece contains the separator |
| Strings.JoinSplit | internal/images/images.go:72 | joining the pieces of a split with the separator gives back the original string |
| Strings.SplitJoin | internal/images/images.go:72 | splitting a join of separator-free pieces gives back the same pieces |
| Strings.SplitLength | internal/images/images.go:72-73 | a split has one more piece than the string has separators, so it has fewer than two pieces exactly when there is no separator |
| Strings.IndexAfterFreePrefix | internal/images/images.go:72 | in p + sep + t with p separator-free, the first separator is at the position just after p |
| Strings.SplitAtFirst | internal/images/images.go:72 | a string with a separator is p + sep + t with p separator-free, and its split is p followed by the split of t |
| Strings.SplitHead | internal/images/images.go:72-76 | the first piece is a separator-free prefix of the string; it is the whole string when there is no separator, and otherwise the separator follows it |
| Strings.SplitHeadOfFreePrefix | internal/images/images.go:72-76 | the first piece of p + sep + t is p when p is separator-free, whatever t is |
| Images.TransportReference | internal/images/images.go:47 | the parser's input is "docker://" followed by the image name, unchanged |
| Images.Arm64LinuxContext | internal/images/images.go:41-45 | the context asks for arm64 and linux and carries the caller's credentials file path |
| Images.CheckLinuxArm64Support | internal/images/images.go:40-69 | a true verdict never carries an error; the probe never reports an invalid image name |
| Images.LatestName | internal/images/images.go:71-76 | the name is rejected with InvalidImageName exactly when it has no colon; otherwise the result is the colon-free prefix running up to the name's first colon, followed by ":latest" |
| Images.CheckLatestLinuxArm64Support | internal/images/images.go:71-78 | a true verdict never carries an error; InvalidImageName is returned exactly when the name has no colon |
| Images.LatestNameShape | internal/images/images.go:76 | a rewritten name ends in ":latest" and contains exactly one colon |
| Images.LatestNameDiscardsTail | internal/images/images.go:72-76 | for a colon-free p, p + ":" + anything is rewritten to p + ":latest" |
| Images.LatestNameIdempotent | internal/images/images.go:72-76 | rewriting a rewritten name returns it unchanged |
| Images.LatestNameOfRegistryWithPort | internal/images/images.go:72-76 | "host:5000/" followed by any path (for example "host:5000/app:1.2") is rewritten to "host:latest" |
| Images.LatestNameOfDigest | internal/images/images.go:72-76 | "nginx@sha256:" followed by any digest is rewritten to "nginx@sha256:latest" |
| Images.LatestNameRejectsUntagged | internal/images/images.go:72-75 | the empty name and "nginx" are rejected with InvalidImageName |
| Images.CheckSupportedIff | internal/images/images.go:47-68 | the verdict is (true, no error) exactly when there is a successful run of all four library calls whose inspected architecture is "arm64" |
| Images.CheckErrorIsFirstFailure | internal/images/images.go:47-66 | the first failing library call decides the result: false with that call's error and its cause; if every call succeeds there is no error |
| Images.CheckIgnoresOs | internal/images/images.go:63-68 | replacing Inspect by one that reports the same architectures and the same failures leaves the verdict unchanged, so the OS does not matter |
| Images.CheckParsesTransportReference | internal/images/images.go:47 | the verdict depends on the parser only through its result on "docker://" + name |
| Images.CheckUsesProbeContext | internal/images/images.go:41-58 | the image source and manifest calls are consulted only with the linux/arm64 context carrying the caller's credentials file path |
| Images.CheckLatestRejectsUntagged | internal/images/images.go:72-75 | a name without a colon, the empty name included, yields (false, InvalidImageName) whatever the library does, so no library call is made |
| Images.CheckLatestProbesLatest | internal/images/images.go:76-77 | for a colon-free p, probing the latest tag of p + ":" + anything is probing p + ":latest" |

## Left out

- `getDockerConfigPath` (internal/images/images.go:31-37) reads the home directory from the OS. Its result is the `authFilePath` parameter.
- `alltransports.ParseImageName`, `NewImageSource`, `image.FromUnparsedImage` and `Inspect` do network access, credential-file reading, manifest-list selection and manifest parsing inside containers/image. They are arbitrary functions in `Images.Library`; no property of their internals is modelled.
- Go passes one `*types.SystemContext` pointer to both `NewImageSource` and `image.FromUnparsedImage` (internal/images/images.go:41-58). The model passes an immutable `SystemContext` value, assuming the library does not change it through the pointer. It also treats each library call as a deterministic function of its arguments. `CheckUsesProbeContext` depends on both assumptions.
- `defer src.Close()` and the `context.Background()` / `context.TODO()` arguments are resource handling and cancellation, not logic.
- The error strings built by `fmt.Errorf` are replaced by one `CheckError` constructor per error site, each carrying the library's cause.
- `types.SystemContext` and `types.ImageInspectInfo` have many more fields; only those the probe sets or reads are modelled.
- Go strings are byte sequences; the model uses character sequences. This is safe for the ASCII colon, which never occurs inside a multi-byte UTF-8 sequence.
- `strings.Split` with an empty or multi-character separator is not modelled; the code only splits on `:`.
