/**
 * WriteImage (WriteImage/WriteImage.cpp), the older copy of BuildImage: the same buffer
 * builders, character test and label check, with the argument scan inside
 * `output_boot_sector` and the label checked before anything is built.
 */
module WriteImage {
  import opened Wrappers
  import opened Packed
  import opened BuildImage

  /**
   * What `output_boot_sector` writes: the label is sanitized first, and a refused label
   * aborts with no file; otherwise the image under the last `-f=` name or "file.img".
   */
  function Written(argv: seq<string>, files: string -> seq<byte>): Result<ImageFile, LabelError>
  {
    match Sanitized(LastOption(argv, LabelOption))
    case Failure(e) => Failure(e)
    case Success(_) =>
      var imageFileName := LastOption(argv, ImageFileOption);
      Success(ImageFile(if imageFileName == [] then DefaultImageFileName else imageFileName,
                        DiskImage(BootSectorAfterRead(LastOption(argv, BootSectorOption), files))))
  }

  /**
   * `output_boot_sector(argc, argv)`: scan the arguments, sanitize the label, build the
   * buffers, default the image name, read the boot-sector file and assemble the image.
   */
  method OutputBootSector(argv: seq<string>, files: string -> seq<byte>) returns (r: Result<ImageFile, LabelError>)
    ensures r == Written(argv, files)
  {
    var bootSectorFileName, imageFileName, volumeLabel := "", "", "";
    var ii := 0;
    while ii < |argv|
      invariant ii <= |argv|
      invariant bootSectorFileName == LastOption(argv[..ii], BootSectorOption)
      invariant imageFileName == LastOption(argv[..ii], ImageFileOption)
      invariant volumeLabel == LastOption(argv[..ii], LabelOption)
    {
      assert argv[..ii + 1][..ii] == argv[..ii];
      if HasOption(argv[ii], BootSectorOption) {
        bootSectorFileName := argv[ii][3..];
      } else if HasOption(argv[ii], ImageFileOption) {
        imageFileName := argv[ii][3..];
      } else if HasOption(argv[ii], LabelOption) {
        volumeLabel := argv[ii][3..];
      }
      ii := ii + 1;
    }
    assert argv[..ii] == argv;

    var sanitized := SanitizeLabel(volumeLabel);
    if sanitized.Failure? {
      return Failure(sanitized.error);
    }
    var bootSector := GetDefaultBootSector();
    var fileAllocationTable := GetEmptyFileAllocationTable(FileAllocationTableSectors);
    var rootDirectory := GetEmptyRootDirectory(RootDirectorySectors);
    if imageFileName == [] {
      imageFileName := DefaultImageFileName;
    }
    if bootSectorFileName != [] {
      ReadBootSectorFile(bootSector, files(bootSectorFileName));
    }
    assert bootSector[..] == BootSectorAfterRead(bootSectorFileName, files);
    var image := AssembleDiskImage(bootSector[..], fileAllocationTable[..], rootDirectory[..]);
    r := Success(ImageFile(imageFileName, image));
  }

  /** `_tmain`: usage and 0 for fewer than two arguments, 1 when anything throws, else 0. */
  function WriteOutcome(argv: seq<string>, files: string -> seq<byte>): Outcome
  {
    if |argv| < 2 then Outcome(0, None)
    else
      match Written(argv, files)
      case Failure(_) => Outcome(1, None)
      case Success(f) => Outcome(0, Some(f))
  }

  method Run(argv: seq<string>, files: string -> seq<byte>) returns (outcome: Outcome)
    ensures outcome == WriteOutcome(argv, files)
  {
    var errorLevel := 0;
    outcome := Outcome(errorLevel, None);
    if |argv| >= 2 {
      var written := OutputBootSector(argv, files);
      match written
      case Failure(_) =>
        errorLevel := 1;
        outcome := Outcome(errorLevel, None);
      case Success(f) =>
        outcome := Outcome(errorLevel, Some(f));
    }
  }

  /**
   * For every command line and every set of files the two tools exit with the same code
   * and write the same file: checking the label before or after the image name is
   * defaulted and the buffers are built changes nothing that can be observed.
   */
  lemma SameOutcomeAsBuildImage(argv: seq<string>, files: string -> seq<byte>)
    ensures WriteOutcome(argv, files) == BuildOutcome(argv, files)
  {
  }

  /** A refused label aborts before any buffer is built, so no file is written. */
  lemma RefusedLabelWritesNothing(argv: seq<string>, files: string -> seq<byte>)
    requires |argv| >= 2 && Sanitized(LastOption(argv, LabelOption)).Failure?
    ensures WriteOutcome(argv, files) == Outcome(1, None)
    ensures Written(argv, files) == Failure(Sanitized(LastOption(argv, LabelOption)).error)
  {
  }
}
