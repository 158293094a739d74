/** The path of a person's picture: any string whose lower-cased form ends in ".png". */
module ImagePath {
  import opened Wrappers
  import opened Text

  const MESSAGE_CONSTRAINTS := "Image path should be a valid path to a .png file"

  /** Equality of image paths is equality of their path strings. */
  datatype ImagePath = ImagePath(path: string)

  /**
   * The picture used when a person has none. The real value is a resource URL looked up at run
   * time; any valid path stands in for it here.
   */
  const DEFAULT_PATH := "images/defaultUserPicture.png"

  /** `isValidImagePath`: the lower-cased path ends with ".png"; nothing on disk is consulted. */
  predicate IsValidImagePath(pathString: string) {
    EndsWith(ToLower(pathString), ".png")
  }

  /** Validity is a test on the last four characters alone, in any letter case. */
  lemma ValidImagePathIff(s: string)
    ensures IsValidImagePath(s) <==>
      |s| >= 4 && s[|s| - 4] == '.' && LowerChar(s[|s| - 3]) == 'p'
      && LowerChar(s[|s| - 2]) == 'n' && LowerChar(s[|s| - 1]) == 'g'
  {
    var l := ToLower(s);
    if |s| >= 4 {
      assert l[|l| - 4..] == [l[|l| - 4], l[|l| - 3], l[|l| - 2], l[|l| - 1]];
    }
  }

  /** The constructor throws `MESSAGE_CONSTRAINTS` exactly when the path is invalid. */
  function Create(pathString: string): (r: Result<ImagePath, string>)
    ensures r.Ok? <==> IsValidImagePath(pathString)
    ensures r.Ok? ==> r.value.path == pathString
    ensures r.Err? ==> r.error == MESSAGE_CONSTRAINTS
  {
    if IsValidImagePath(pathString) then Ok(ImagePath(pathString)) else Err(MESSAGE_CONSTRAINTS)
  }

  const DEFAULT: ImagePath := ImagePath(DEFAULT_PATH)

  /** An upper-case extension is accepted, another extension is not, and the default is valid. */
  lemma ImagePathExamples()
    ensures Create("photo.PNG").Ok? && Create("photo.png").Ok?
    ensures Create("photo.jpg").Err? && Create("png").Err?
    ensures IsValidImagePath(DEFAULT_PATH)
  {
    ValidImagePathIff("photo.PNG");
    ValidImagePathIff("photo.png");
    ValidImagePathIff("photo.jpg");
    ValidImagePathIff(DEFAULT_PATH);
  }

  /** `toString` is the stored path, so rendering and re-creating a valid path gives it back. */
  function ToString(p: ImagePath): (r: string)
    ensures IsValidImagePath(p.path) ==> Create(r) == Ok(p)
  {
    p.path
  }
}
