/** The extension check applied to uploaded image file names. */
module Upload {
  import opened Optional
  import opened Text

  const AllowedExtensions: set<string> := {"webp", "png", "jpg", "jpeg", "gif"}

  /** Position of the last '.' in `s`, if any. */
  function LastDot(s: string): (r: Option<nat>)
    ensures r.Some? ==> r.value < |s| && s[r.value] == '.'
    ensures r.Some? ==> forall j | r.value < j < |s| :: s[j] != '.'
    ensures r.None? <==> '.' !in s
  {
    if |s| == 0 then None
    else if s[|s| - 1] == '.' then Some(|s| - 1)
    else
      assert s == s[..|s| - 1] + [s[|s| - 1]];
      LastDot(s[..|s| - 1])
  }

  /** The text after the last '.', which is what `rsplit(".", 1)[1]` picks;
      None when the name has no dot (the split then has one part only). */
  function Extension(filename: string): (r: Option<string>)
    ensures r.None? <==> '.' !in filename
    ensures r.Some? ==> '.' !in r.value
    ensures r.Some? ==> exists i | 0 <= i < |filename| :: filename[i] == '.' && r.value == filename[i + 1..]
  {
    match LastDot(filename)
    case None => None
    case Some(i) =>
      assert forall j | i < j < |filename| :: filename[j] == filename[i + 1..][j - i - 1];
      Some(filename[i + 1..])
  }

  /** A dot that no later dot follows is the last dot. */
  lemma LastDotUnique(s: string, i: nat)
    requires i < |s| && s[i] == '.'
    requires '.' !in s[i + 1..]
    ensures LastDot(s) == Some(i)
  {
  }

  /** `allowed_file`: the lower-cased text after the last dot must be an
      allowed image extension. */
  function AllowedFile(filename: string): (r: bool)
    ensures '.' !in filename ==> !r
  {
    match Extension(filename)
    case None => false
    case Some(ext) => Lower(ext) in AllowedExtensions
  }

  /** A file name is accepted exactly when it has a dot that no later dot
      follows and the lower-cased text after that dot is an allowed extension. */
  lemma AllowedFileIff(filename: string)
    ensures AllowedFile(filename) <==>
      exists i | 0 <= i < |filename| ::
        filename[i] == '.' && '.' !in filename[i + 1..] && Lower(filename[i + 1..]) in AllowedExtensions
  {
    match LastDot(filename)
    case None =>
    case Some(d) =>
      assert forall j | d < j < |filename| :: filename[j] == filename[d + 1..][j - d - 1];
      forall i | 0 <= i < |filename| && filename[i] == '.' && '.' !in filename[i + 1..]
        ensures i == d
      {
        LastDotUnique(filename, i);
      }
  }

  lemma AllowedFileAcceptsUpperCase()
    ensures AllowedFile("photo.PNG")
  {
    LastDotUnique("photo.PNG", 5);
    assert Lower("photo.PNG"[6..]) == "png";
  }

  lemma AllowedFileAcceptsBareExtension()
    ensures AllowedFile(".gif")
  {
    LastDotUnique(".gif", 0);
    assert Lower(".gif"[1..]) == "gif";
  }

  lemma AllowedFileUsesLastDot()
    ensures !AllowedFile("archive.png.zip")
  {
  }

  lemma AllowedFileRejectsNoDot()
    ensures !AllowedFile("png")
  {
  }
}
