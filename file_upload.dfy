/**
 * The upload widget's gate, `app/components/FileUpload.jsx`: the
 * extension test on the chosen file's name and the ordered checks in
 * `handleFile`, written as the sequence of effects the handler performs
 * (setting the local error text, handing the file to the page), and the
 * error text the widget shows.
 */
module FileUpload {
  import opened Wrappers
  import opened Strings
  import opened Tabular

  /** What the handler sees of a browser `File`: its name and size in bytes. */
  datatype LocalFile = LocalFile(name: string, size: nat)

  /** One observable step of `handleFile`. */
  datatype Effect =
    | SetLocalError(message: string)   // `setLocalError(message)`
    | Accept(file: LocalFile)          // `onFileAccepted(file)`

  const AcceptedExtensions: seq<string> := [".xlsx", ".xls"]
  /** 20 MB. */
  const MaxSize: nat := 20 * 1024 * 1024
  const UnsupportedTypeMessage: string := "Unsupported file type. Please upload a .xlsx or .xls file."
  const TooLargeMessage: string := "File is too large. Maximum supported size is 20MB."

  /** `isValidFile`: a dot followed by the lower-cased text after the last dot is one of the accepted extensions. */
  predicate IsValidFile(name: string)
  {
    "." + AsciiLower(LastSegment(name, '.')) in AcceptedExtensions
  }

  /** The browser accepts exactly the names the server routes accept, so an accepted file never fails their type check. */
  lemma IsValidFileMatchesServer(name: string)
    ensures IsValidFile(name) <==> AcceptedUploadName(name)
  {
    var ext := AsciiLower(LastSegment(name, '.'));
    DotCancels(ext, "xlsx");
    DotCancels(ext, "xls");
    assert "." + "xlsx" == ".xlsx" && "." + "xls" == ".xls";
    assert "." + ext in AcceptedExtensions <==> "." + ext == "." + "xlsx" || "." + ext == "." + "xls";
  }

  lemma DotCancels(x: string, y: string)
    ensures "." + x == "." + y <==> x == y
  {
    if "." + x == "." + y {
      assert x == ("." + x)[1..];
      assert y == ("." + y)[1..];
    }
  }

  /**
   * `handleFile`: the local error is cleared first; nothing more happens
   * without a file; otherwise the type is checked before the size, and the
   * file is handed on only when both checks pass.
   */
  function HandleFile(file: Option<LocalFile>): (effects: seq<Effect>)
    ensures |effects| > 0 && effects[0] == SetLocalError("")
    ensures |effects| <= 2
    ensures file.None? ==> effects == [SetLocalError("")]
    ensures (exists f :: Accept(f) in effects) <==> file.Some? && IsValidFile(file.value.name) && file.value.size <= MaxSize
    ensures forall f :: Accept(f) in effects ==> f == file.value
  {
    var clear := SetLocalError("");
    if file.None? then [clear]
    else if !IsValidFile(file.value.name) then [clear, SetLocalError(UnsupportedTypeMessage)]
    else if file.value.size > MaxSize then [clear, SetLocalError(TooLargeMessage)]
    else [clear, Accept(file.value)]
  }

  /** `localError` once the handler has run: the message of its last `setLocalError`. */
  function LocalError(effects: seq<Effect>): string
  {
    if |effects| == 0 then ""
    else if effects[|effects| - 1].SetLocalError? then effects[|effects| - 1].message
    else LocalError(effects[..|effects| - 1])
  }

  /** `displayError`: the local error when there is one, otherwise the `error` the page passes in. */
  function DisplayError(localError: string, error: string): string
  {
    if localError != "" then localError else error
  }

  /**
   * The outcomes, by case, with `error` the page's error text: the type
   * error wins over the size error whatever the page says, and when the
   * handler leaves no local error the page's error is what is shown.
   */
  lemma HandleFileOutcomes(file: Option<LocalFile>, error: string)
    ensures file.None? ==> LocalError(HandleFile(file)) == "" && DisplayError(LocalError(HandleFile(file)), error) == error
    ensures file.Some? && !IsValidFile(file.value.name) ==>
      && LocalError(HandleFile(file)) == UnsupportedTypeMessage
      && DisplayError(LocalError(HandleFile(file)), error) == UnsupportedTypeMessage
      && HandleFile(file)[1] == SetLocalError(UnsupportedTypeMessage)
    ensures file.Some? && IsValidFile(file.value.name) && file.value.size > MaxSize ==>
      && LocalError(HandleFile(file)) == TooLargeMessage
      && DisplayError(LocalError(HandleFile(file)), error) == TooLargeMessage
    ensures file.Some? && IsValidFile(file.value.name) && file.value.size <= MaxSize ==>
      && LocalError(HandleFile(file)) == ""
      && DisplayError(LocalError(HandleFile(file)), error) == error
      && HandleFile(file) == [SetLocalError(""), Accept(file.value)]
  {
    var e := HandleFile(file);
    if file.Some? && IsValidFile(file.value.name) && file.value.size <= MaxSize {
      assert e[..1] == [SetLocalError("")];
    }
  }

  /** The size limit is inclusive: exactly 20 MB passes, one byte more does not. */
  lemma SizeLimitBoundary(name: string)
    requires IsValidFile(name)
    ensures HandleFile(Some(LocalFile(name, 20971520))) == [SetLocalError(""), Accept(LocalFile(name, 20971520))]
    ensures HandleFile(Some(LocalFile(name, 20971521))) == [SetLocalError(""), SetLocalError(TooLargeMessage)]
  {
  }

  /** A file the widget hands on passes the type check of both server routes. */
  lemma AcceptedUploadPassesServerTypeCheck(file: LocalFile)
    requires Accept(file) in HandleFile(Some(file))
    ensures AcceptedUploadName(file.name)
  {
    IsValidFileMatchesServer(file.name);
  }
}
