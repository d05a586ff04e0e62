/** The web app's file-type gate for uploads. */
module AppFiles {
  import opened Text

  const AllowedExtensions: set<string> := {"png", "jpg", "jpeg", "gif"}

  /** `filename.rsplit('.', 1)[1]`: the text after the last dot. */
  function Extension(filename: string): (ext: string)
    requires '.' in filename
    ensures '.' !in ext
    ensures |ext| < |filename| && filename[|filename| - |ext| - 1] == '.'
    ensures ext == filename[|filename| - |ext|..]
  {
    filename[LastIndexOf(filename, '.') + 1..]
  }

  /** `allowed_file`: a dot, and the lower-cased text after the last dot is an allowed extension. */
  predicate AllowedFile(filename: string) {
    '.' in filename && Lower(Extension(filename)) in AllowedExtensions
  }

  /** `filename` has its last dot at `i` and the text after it is an allowed extension, in any case. */
  predicate AllowedAt(filename: string, i: int) {
    0 <= i < |filename| && filename[i] == '.' && '.' !in filename[i + 1..] &&
    Lower(filename[i + 1..]) in AllowedExtensions
  }

  /**
   * A name is allowed exactly when it splits at some dot into a stem and
   * an extension with no further dot whose lower-case form is allowed.
   */
  lemma AllowedFileIff(filename: string)
    ensures AllowedFile(filename) <==> exists i :: AllowedAt(filename, i)
  {
    if AllowedFile(filename) {
      var i := LastIndexOf(filename, '.');
      assert filename[i + 1..] == Extension(filename);
      assert AllowedAt(filename, i);
    }
    if exists i :: AllowedAt(filename, i) {
      var i :| AllowedAt(filename, i);
      LastIndexOfUnique(filename, '.', i);
      assert Extension(filename) == filename[i + 1..];
    }
  }

  /** The extension is compared case-insensitively. */
  lemma UpperCaseExtensionAllowed()
    ensures AllowedFile("a.JPG")
  {
    LastIndexOfUnique("a.JPG", '.', 1);
    assert Extension("a.JPG") == "JPG";
    assert Lower("JPG") == "jpg";
  }

  /** A bare extension without a dot is refused. */
  lemma BareExtensionRefused()
    ensures !AllowedFile("jpg")
  {
  }

  /** Only the text after the last dot counts. */
  lemma DoubleExtensionRefused()
    ensures !AllowedFile("a.tar.gz")
  {
    LastIndexOfUnique("a.tar.gz", '.', 5);
    assert Extension("a.tar.gz") == "gz";
    assert Lower("gz") == "gz";
  }
}
