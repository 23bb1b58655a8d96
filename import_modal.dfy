/** The import dialog of components/modal/ImportModal.tsx: the two file
    checks, the drop and select handlers of the photo and JSON zones, the
    read callbacks, the Import and Cancel buttons, and the class lists of the
    two drop zones. A `File` is its MIME type, name and size; `JSON.parse` is
    a parameter that fails on malformed text. */
module ImportModal {
  import opened Wrappers
  import opened Json
  import opened CVTypes
  import opened JsonUtils

  datatype FileInfo = FileInfo(mime: string, name: string, size: nat)

  const PhotoTypeError := "El archivo debe ser una imagen (JPG, PNG, etc.)"
  const PhotoSizeError := "La imagen no puede superar los 5MB"
  const JsonTypeError := "El archivo debe ser un JSON"
  const JsonSizeError := "El archivo no puede superar los 1MB"
  const JsonShapeError := "El JSON no tiene el formato correcto de un CV"
  const JsonReadError := "Error al leer el archivo JSON"

  const MaxPhotoBytes: nat := 5 * 1024 * 1024
  const MaxJsonBytes: nat := 1024 * 1024

  predicate StartsWith(s: string, p: string) {
    |p| <= |s| && s[..|p|] == p
  }

  predicate EndsWith(s: string, p: string) {
    |p| <= |s| && s[|s| - |p|..] == p
  }

  /** `validatePhoto`: the type is checked before the size, and a photo
      passes exactly when its type is `image/...` and it is at most 5 MB. */
  function ValidatePhoto(f: FileInfo): (r: Option<string>)
    ensures r.None? <==> StartsWith(f.mime, "image/") && f.size <= MaxPhotoBytes
    ensures !StartsWith(f.mime, "image/") ==> r == Some(PhotoTypeError)
    ensures StartsWith(f.mime, "image/") && f.size > MaxPhotoBytes ==> r == Some(PhotoSizeError)
  {
    if !StartsWith(f.mime, "image/") then Some(PhotoTypeError)
    else if f.size > MaxPhotoBytes then Some(PhotoSizeError)
    else None
  }

  /** `validateJSON`: either the JSON MIME type or a `.json` name will do,
      then the size must be at most 1 MB. */
  function ValidateJSON(f: FileInfo): (r: Option<string>)
    ensures r.None? <==> (f.mime == "application/json" || EndsWith(f.name, ".json")) && f.size <= MaxJsonBytes
    ensures f.mime != "application/json" && !EndsWith(f.name, ".json") ==> r == Some(JsonTypeError)
    ensures (f.mime == "application/json" || EndsWith(f.name, ".json")) && f.size > MaxJsonBytes
      ==> r == Some(JsonSizeError)
  {
    if f.mime != "application/json" && !EndsWith(f.name, ".json") then Some(JsonTypeError)
    else if f.size > MaxJsonBytes then Some(JsonSizeError)
    else None
  }

  /** The limits are inclusive: exactly 5 MB and exactly 1 MB still pass,
      one byte more does not. */
  lemma LimitsAreInclusive(name: string)
    ensures ValidatePhoto(FileInfo("image/png", name, 5242880)).None?
    ensures ValidatePhoto(FileInfo("image/png", name, 5242881)) == Some(PhotoSizeError)
    ensures ValidateJSON(FileInfo("application/json", name, 1048576)).None?
    ensures ValidateJSON(FileInfo("application/json", name, 1048577)) == Some(JsonSizeError)
  {
    assert StartsWith("image/png", "image/") by { assert "image/png"[..6] == "image/"; }
  }

  /** A file named `*.json` passes the type check whatever its MIME type. */
  lemma JsonNameSuffices(stem: string, mime: string, size: nat)
    requires size <= MaxJsonBytes
    ensures ValidateJSON(FileInfo(mime, stem + ".json", size)).None?
  {
    var n := stem + ".json";
    assert n[|n| - 5..] == ".json";
  }

  // ---------------------------------------------------------------------------
  // Drop-zone class lists

  /** Class tokens of the state-dependent part of a zone's `className`; the
      fixed leading classes are the same for every state and are left out. */
  function DragTokens(dragging: bool): seq<string> {
    if dragging then ["border-primary", "bg-primary/10"]
    else ["border-base-300/50", "hover:border-primary", "hover:bg-base-100/30"]
  }

  function ErrorTokens(error: Option<string>): seq<string> {
    if Truthy(error) then ["border-error", "bg-error/10"] else []
  }

  const SuccessTokens: seq<string> := ["border-success", "bg-success/10"]

  /** The photo zone: drag state, error highlight, then the success
      highlight once a preview exists. */
  function PhotoZoneClasses(dragging: bool, error: Option<string>, preview: Option<string>): (r: seq<string>)
    ensures "border-success" in r <==> Truthy(preview)
    ensures "border-error" in r <==> Truthy(error)
  {
    DragTokens(dragging) + ErrorTokens(error) + (if Truthy(preview) then SuccessTokens else [])
  }

  /** The JSON zone as written: its third line lacks the `$` of a template
      placeholder, so the expression is copied into the class list as
      literal text, whatever the state. */
  function JsonZoneClassesAsWritten(dragging: bool, error: Option<string>, fileName: Option<string>): seq<string> {
    DragTokens(dragging) + ErrorTokens(error)
      + ["{jsonFileName", "&&", "!errors.json", "?", "'border-success", "bg-success/10'", ":", "''}"]
  }

  /** As written, the success highlight of the JSON zone never applies. */
  lemma JsonZoneNeverSucceeds(dragging: bool, error: Option<string>, fileName: Option<string>)
    ensures "border-success" !in JsonZoneClassesAsWritten(dragging, error, fileName)
    ensures fileName == Some("cv.json") && error.None?
      ==> JsonZoneClassesAsWritten(dragging, error, fileName) != JsonZoneClasses(dragging, error, fileName)
  {
    var lit := ["{jsonFileName", "&&", "!errors.json", "?", "'border-success", "bg-success/10'", ":", "''}"];
    assert "border-success" !in lit by {
      assert "'border-success" != "border-success";
    }
    if fileName == Some("cv.json") && error.None? {
      var w := JsonZoneClassesAsWritten(dragging, error, fileName);
      assert "border-success" in JsonZoneClasses(dragging, error, fileName);
      assert "border-success" !in w;
    }
  }

  /** The JSON zone as intended, mirroring the photo zone: the success
      highlight shows once a file name is set and no JSON error is shown. */
  function JsonZoneClasses(dragging: bool, error: Option<string>, fileName: Option<string>): (r: seq<string>)
    ensures "border-success" in r <==> Truthy(fileName) && !Truthy(error)
    ensures "border-error" in r <==> Truthy(error)
  {
    DragTokens(dragging) + ErrorTokens(error) + (if Truthy(fileName) && !Truthy(error) then SuccessTokens else [])
  }

  // ---------------------------------------------------------------------------
  // The dialog state

  datatype Zone = PhotoZone | JsonZone

  class ImportDialog {
    var draggingPhoto: bool
    var draggingJson: bool
    var photoPreview: Option<string>
    var jsonFileName: Option<string>
    var photoError: Option<string>
    var jsonError: Option<string>
    var loadedData: Option<JValue>
    var loadedPhoto: Option<string>

    /** The preview and the photo to import are always set and cleared
        together, and only data that passed `validateCVData` is ever held. */
    ghost predicate Valid()
      reads this
    {
      photoPreview == loadedPhoto && (loadedData.Some? ==> IsCVData(loadedData.value))
    }

    /** The `useState` initial values. */
    constructor()
      ensures Valid()
      ensures !draggingPhoto && !draggingJson
      ensures photoPreview.None? && jsonFileName.None? && photoError.None? && jsonError.None?
      ensures loadedData.None? && loadedPhoto.None?
    {
      draggingPhoto := false;
      draggingJson := false;
      photoPreview := None;
      jsonFileName := None;
      photoError := None;
      jsonError := None;
      loadedData := None;
      loadedPhoto := None;
    }

    /** `onDragOver`: the zone is highlighted as a drop target. */
    method DragOver(z: Zone)
      modifies this
      ensures draggingPhoto == (if z == PhotoZone then true else old(draggingPhoto))
      ensures draggingJson == (if z == JsonZone then true else old(draggingJson))
      ensures photoPreview == old(photoPreview) && jsonFileName == old(jsonFileName)
      ensures photoError == old(photoError) && jsonError == old(jsonError)
      ensures loadedData == old(loadedData) && loadedPhoto == old(loadedPhoto)
    {
      if z == PhotoZone { draggingPhoto := true; } else { draggingJson := true; }
    }

    /** `onDragLeave`: the highlight goes. */
    method DragLeave(z: Zone)
      modifies this
      ensures draggingPhoto == (if z == PhotoZone then false else old(draggingPhoto))
      ensures draggingJson == (if z == JsonZone then false else old(draggingJson))
      ensures photoPreview == old(photoPreview) && jsonFileName == old(jsonFileName)
      ensures photoError == old(photoError) && jsonError == old(jsonError)
      ensures loadedData == old(loadedData) && loadedPhoto == old(loadedPhoto)
    {
      if z == PhotoZone { draggingPhoto := false; } else { draggingJson := false; }
    }

    /** `handlePhotoFileSelect`: no file does nothing; a rejected file
        records the error and starts no read; an accepted one clears the
        photo error and starts reading it (`reading`). */
    method HandlePhotoFileSelect(file: Option<FileInfo>) returns (reading: bool)
      requires Valid()
      modifies this
      ensures Valid()
      ensures reading <==> file.Some? && ValidatePhoto(file.value).None?
      ensures photoError == (if file.None? then old(photoError) else ValidatePhoto(file.value))
      ensures draggingPhoto == old(draggingPhoto) && draggingJson == old(draggingJson)
      ensures photoPreview == old(photoPreview) && jsonFileName == old(jsonFileName) && jsonError == old(jsonError)
      ensures loadedData == old(loadedData) && loadedPhoto == old(loadedPhoto)
    {
      if file.None? { return false; }
      var error := ValidatePhoto(file.value);
      if error.Some? {
        photoError := error;
        return false;
      }
      photoError := None;
      return true;
    }

    /** `handlePhotoDrop`: the drag highlight goes, then as for a selected file. */
    method HandlePhotoDrop(file: Option<FileInfo>) returns (reading: bool)
      requires Valid()
      modifies this
      ensures Valid()
      ensures reading <==> file.Some? && ValidatePhoto(file.value).None?
      ensures photoError == (if file.None? then old(photoError) else ValidatePhoto(file.value))
      ensures !draggingPhoto && draggingJson == old(draggingJson)
      ensures photoPreview == old(photoPreview) && jsonFileName == old(jsonFileName) && jsonError == old(jsonError)
      ensures loadedData == old(loadedData) && loadedPhoto == old(loadedPhoto)
    {
      draggingPhoto := false;
      reading := HandlePhotoFileSelect(file);
    }

    /** The photo reader's `onload`: the data URL becomes both the preview
        and the photo to import. */
    method PhotoLoaded(dataUrl: string)
      requires Valid()
      modifies this
      ensures Valid()
      ensures photoPreview == Some(dataUrl) && loadedPhoto == Some(dataUrl)
      ensures draggingPhoto == old(draggingPhoto) && draggingJson == old(draggingJson)
      ensures jsonFileName == old(jsonFileName) && photoError == old(photoError) && jsonError == old(jsonError)
      ensures loadedData == old(loadedData)
    {
      photoPreview := Some(dataUrl);
      loadedPhoto := Some(dataUrl);
    }

    /** `handleJSONFileSelect`: as for the photo, and an accepted file also
        shows its name before it has been read. */
    method HandleJSONFileSelect(file: Option<FileInfo>) returns (reading: bool)
      requires Valid()
      modifies this
      ensures Valid()
      ensures reading <==> file.Some? && ValidateJSON(file.value).None?
      ensures jsonError == (if file.None? then old(jsonError) else ValidateJSON(file.value))
      ensures jsonFileName == (if reading then Some(file.value.name) else old(jsonFileName))
      ensures draggingPhoto == old(draggingPhoto) && draggingJson == old(draggingJson)
      ensures photoPreview == old(photoPreview) && photoError == old(photoError)
      ensures loadedData == old(loadedData) && loadedPhoto == old(loadedPhoto)
    {
      if file.None? { return false; }
      var error := ValidateJSON(file.value);
      if error.Some? {
        jsonError := error;
        return false;
      }
      jsonError := None;
      jsonFileName := Some(file.value.name);
      return true;
    }

    /** `handleJSONDrop`: the drag highlight goes, then as for a selected file. */
    method HandleJSONDrop(file: Option<FileInfo>) returns (reading: bool)
      requires Valid()
      modifies this
      ensures Valid()
      ensures reading <==> file.Some? && ValidateJSON(file.value).None?
      ensures jsonError == (if file.None? then old(jsonError) else ValidateJSON(file.value))
      ensures jsonFileName == (if reading then Some(file.value.name) else old(jsonFileName))
      ensures !draggingJson && draggingPhoto == old(draggingPhoto)
      ensures photoPreview == old(photoPreview) && photoError == old(photoError)
      ensures loadedData == old(loadedData) && loadedPhoto == old(loadedPhoto)
    {
      draggingJson := false;
      reading := HandleJSONFileSelect(file);
    }

    /** The JSON reader's `onload`: text that does not parse, or parses to
        something `validateCVData` rejects, records the matching error and
        keeps whatever was loaded before; a valid document clears the error
        and becomes the data to import. */
    method JsonLoaded(parse: string -> Option<JValue>, text: string)
      requires Valid()
      modifies this
      ensures Valid()
      ensures parse(text).None? ==> jsonError == Some(JsonReadError) && loadedData == old(loadedData)
      ensures parse(text).Some? && !IsCVData(parse(text).value)
        ==> jsonError == Some(JsonShapeError) && loadedData == old(loadedData)
      ensures parse(text).Some? && IsCVData(parse(text).value)
        ==> jsonError.None? && loadedData == parse(text)
      ensures draggingPhoto == old(draggingPhoto) && draggingJson == old(draggingJson)
      ensures photoPreview == old(photoPreview) && jsonFileName == old(jsonFileName) && photoError == old(photoError)
      ensures loadedPhoto == old(loadedPhoto)
    {
      var parsed := parse(text);
      if parsed.None? {
        jsonError := Some(JsonReadError);
        return;
      }
      var data := parsed.value;
      var ok := ValidateCVData(data);
      if !ok {
        jsonError := Some(JsonShapeError);
        return;
      }
      jsonError := None;
      loadedData := Some(data);
    }

    /** What the Import button hands over: the loaded document (an object
        is always truthy) and the photo when it is a non-empty string. */
    function Payload(): (p: (Option<JValue>, Option<string>))
      reads this
      ensures Valid() && p.0.Some? ==> IsCVData(p.0.value)
      ensures p.1.Some? ==> p.1.value != ""
    {
      (loadedData, if Truthy(loadedPhoto) then loadedPhoto else None)
    }

    /** `disabled={!loadedData && !loadedPhoto}`: exactly when Import would
        hand over nothing. */
    function ImportDisabled(): (b: bool)
      reads this
      ensures b <==> Payload() == (None, None)
    {
      loadedData.None? && !Truthy(loadedPhoto)
    }

    /** `handleClose`: every piece of dialog state except the drag flags
        goes back to empty. */
    method HandleClose()
      requires Valid()
      modifies this
      ensures Valid() && ImportDisabled()
      ensures photoPreview.None? && jsonFileName.None? && photoError.None? && jsonError.None?
      ensures loadedData.None? && loadedPhoto.None?
      ensures draggingPhoto == old(draggingPhoto) && draggingJson == old(draggingJson)
    {
      photoPreview := None;
      jsonFileName := None;
      photoError := None;
      jsonError := None;
      loadedData := None;
      loadedPhoto := None;
    }

    /** `handleImport`: the arguments of `onImportJSON` and `onImportPhoto`
        (None when the call is skipped), then the dialog closes. Only a
        validated document is ever passed on, and when the button is
        enabled at least one of the two calls happens. */
    method HandleImport() returns (data: Option<JValue>, photo: Option<string>)
      requires Valid()
      modifies this
      ensures (data, photo) == old(Payload())
      ensures data.Some? ==> IsCVData(data.value)
      ensures !old(ImportDisabled()) <==> data.Some? || photo.Some?
      ensures Valid() && ImportDisabled()
      ensures photoPreview.None? && jsonFileName.None? && photoError.None? && jsonError.None?
      ensures draggingPhoto == old(draggingPhoto) && draggingJson == old(draggingJson)
    {
      data := None;
      photo := None;
      if loadedData.Some? {
        data := loadedData;
      }
      if Truthy(loadedPhoto) {
        photo := loadedPhoto;
      }
      HandleClose();
    }

    /** The JSON zone's class list in the current state, as intended. */
    function JsonZoneClassList(): (r: seq<string>)
      reads this
      ensures "border-success" in r <==> Truthy(jsonFileName) && !Truthy(jsonError)
    {
      JsonZoneClasses(draggingJson, jsonError, jsonFileName)
    }

    /** The photo zone's class list in the current state. */
    function PhotoZoneClassList(): (r: seq<string>)
      reads this
      ensures "border-success" in r <==> Truthy(photoPreview)
    {
      PhotoZoneClasses(draggingPhoto, photoError, photoPreview)
    }
  }

  /** A document read after a file was accepted but rejected by
      `validateCVData` leaves the file name shown (and with it the "valid
      format" line of the zone) next to the shape error. */
  method RejectedDocumentKeepsName(parse: string -> Option<JValue>, text: string, name: string)
    returns (d: ImportDialog)
    requires parse(text).Some? && !IsCVData(parse(text).value)
    ensures d.jsonFileName == Some(name + ".json") && d.jsonError == Some(JsonShapeError)
    ensures d.loadedData.None? && d.ImportDisabled()
  {
    d := new ImportDialog();
    JsonNameSuffices(name, "", 10);
    var reading := d.HandleJSONFileSelect(Some(FileInfo("", name + ".json", 10)));
    d.JsonLoaded(parse, text);
  }
}
