/** The image picker (src/components/ui/image-upload.tsx): the size and
    extension checks of `validateFile`, and `uploadFile`, which stores a
    file only once it has passed them. The storage bucket's answer and the
    generated file-name prefix are parameters. */
module ImageUpload {
  import opened Common

  /** The part of a browser `File` the checks read; `size` is in bytes. */
  datatype File = File(name: string, size: int)

  /** The component's defaults: one megabyte, and three extensions. */
  const DefaultMaxSize: real := 1.0
  const DefaultFormats: seq<string> := [".jpg", ".jpeg", ".png"]

  datatype UploadError = TooLarge | UnsupportedType

  /** `name.split('.').pop()`: the text after the last dot, or the whole
      name when it has none. */
  function LastSegment(name: string): (r: string)
    ensures '.' !in r
    ensures |r| <= |name| && r == name[|name| - |r|..]
    ensures |r| < |name| ==> name[|name| - |r| - 1] == '.'
  {
    if name == [] then []
    else if name[|name| - 1] == '.' then []
    else
      var r := LastSegment(name[..|name| - 1]);
      assert name[..|name| - 1][|name| - 1 - |r|..] + [name[|name| - 1]] == name[|name| - 1 - |r|..];
      r + [name[|name| - 1]]
  }

  /** `'.' + name.split('.').pop()?.toLowerCase()`. */
  function FileExtension(name: string): string
  {
    "." + ToLower(LastSegment(name))
  }

  /** The segment after the last dot is exactly what follows that dot. */
  lemma {:induction false} LastSegmentAfterDot(base: string, ext: string)
    requires '.' !in ext
    ensures LastSegment(base + "." + ext) == ext
  {
    if ext == [] {
      assert (base + "." + ext)[|base + "." + ext| - 1] == '.';
    } else {
      var name := base + "." + ext;
      var e := ext[..|ext| - 1];
      assert name[..|name| - 1] == base + "." + e;
      LastSegmentAfterDot(base, e);
      assert ext == e + [ext[|ext| - 1]];
    }
  }

  /** A name with a dot has the lowercased text after its last dot as its
      extension. */
  lemma ExtensionOfDottedName(base: string, ext: string)
    requires '.' !in ext
    ensures FileExtension(base + "." + ext) == "." + ToLower(ext)
  {
    LastSegmentAfterDot(base, ext);
  }

  /** A name without a dot is its own extension. */
  lemma ExtensionOfPlainName(name: string)
    requires '.' !in name
    ensures FileExtension(name) == "." + ToLower(name)
  {
    assert LastSegment(name) == name;
  }

  /** `maxSize * 1024 * 1024`: the megabyte limit in bytes. */
  function SizeLimit(maxSize: real): real
  {
    maxSize * 1024.0 * 1024.0
  }

  /** `validateFile`: the size is checked first, then the extension. */
  function ValidateFile(file: File, maxSize: real, acceptedFormats: seq<string>): Option<UploadError>
  {
    if file.size as real > SizeLimit(maxSize) then Some(TooLarge)
    else if FileExtension(file.name) !in acceptedFormats then Some(UnsupportedType)
    else None
  }

  /** A file is too large exactly when it exceeds the limit, of an
      unsupported type exactly when it fits but its extension is not
      accepted, and passes exactly when both checks do. */
  lemma ValidateFileMeaning(file: File, maxSize: real, acceptedFormats: seq<string>)
    ensures ValidateFile(file, maxSize, acceptedFormats) == Some(TooLarge) <==> file.size as real > SizeLimit(maxSize)
    ensures ValidateFile(file, maxSize, acceptedFormats) == Some(UnsupportedType) <==>
      file.size as real <= SizeLimit(maxSize) && FileExtension(file.name) !in acceptedFormats
    ensures ValidateFile(file, maxSize, acceptedFormats) == None <==>
      file.size as real <= SizeLimit(maxSize) && FileExtension(file.name) in acceptedFormats
  {
  }

  /** With the defaults, an upper-case `.JPG` of exactly one megabyte
      passes. */
  lemma UpperCaseJpegAtLimitPasses()
    ensures ValidateFile(File("logo.JPG", 1048576), DefaultMaxSize, DefaultFormats) == None
  {
    ExtensionOfDottedName("logo", "JPG");
    assert "logo.JPG" == "logo" + "." + "JPG";
    assert ToLower("JPG") == "jpg";
    assert "." + "jpg" == ".jpg" == DefaultFormats[0];
  }

  /** One byte over the limit is too large, whatever the extension. */
  lemma OneByteOverIsTooLarge(name: string)
    ensures ValidateFile(File(name, 1048577), DefaultMaxSize, DefaultFormats) == Some(TooLarge)
  {
  }

  /** A `.gif` is refused by the defaults. */
  lemma GifRefused(size: int)
    requires 0 <= size <= 1048576
    ensures ValidateFile(File("logo.gif", size), DefaultMaxSize, DefaultFormats) == Some(UnsupportedType)
  {
    ExtensionOfDottedName("logo", "gif");
    assert "logo.gif" == "logo" + "." + "gif";
    assert ToLower("gif") == "gif";
    assert "." + "gif" == ".gif";
    assert ".gif"[1] != ".jpg"[1] && |".gif"| != |".jpeg"| && ".gif"[1] != ".png"[1];
  }

  /** The name a file is stored under: the generated prefix and the text
      after the file's last dot, case kept. */
  function StoredName(prefix: string, name: string): string
  {
    prefix + "." + LastSegment(name)
  }

  /** The upload button's state: the names written to the storage bucket,
      and the last address handed to `onUpload`. */
  class ImageUploader {
    const maxSize: real
    const acceptedFormats: seq<string>
    var stored: seq<string>
    var published: Option<string>

    constructor (maxSize: real, acceptedFormats: seq<string>)
      ensures this.maxSize == maxSize && this.acceptedFormats == acceptedFormats
      ensures stored == [] && published == None
    {
      this.maxSize := maxSize;
      this.acceptedFormats := acceptedFormats;
      stored := [];
      published := None;
    }

    /** `uploadFile`: a file that fails validation is reported and nothing
        is stored; otherwise it is stored under the generated prefix and
        its original extension, and on success its public address is
        published. */
    method UploadFile(file: File, prefix: string, storageOk: bool, publicUrl: string)
      returns (error: Option<UploadError>)
      modifies this
      ensures error == ValidateFile(file, maxSize, acceptedFormats)
      ensures stored == if error.None? && storageOk then old(stored) + [StoredName(prefix, file.name)] else old(stored)
      ensures published == if error.None? && storageOk then Some(publicUrl) else old(published)
    {
      error := ValidateFile(file, maxSize, acceptedFormats);
      if error.Some? {
        return;
      }
      var fileName := StoredName(prefix, file.name);
      if storageOk {
        stored := stored + [fileName];
        published := Some(publicUrl);
      }
    }
  }
}
