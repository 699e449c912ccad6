/**
 * The `fileFilter` of the upload middleware: a file is accepted when the base of its MIME type
 * (what precedes the first `;`) is one of ten audio types, compared exactly.
 */
module UploadFilter {
  import opened JsStrings

  /** The allow-list, in the order the middleware lists it. */
  const AllowedMimeTypes: seq<string> := [
    "audio/mpeg", "audio/mp3", "audio/wav", "audio/wave",
    "audio/x-wav", "audio/webm", "audio/ogg", "audio/aac",
    "audio/m4a", "audio/x-m4a"
  ]

  const InvalidFileType := "Invalid file type. Only audio files are allowed."

  /** What the filter passes to its callback: `cb(null, true)` or `cb(new Error(message), false)`. */
  datatype Decision =
    | Accept
    | Reject(message: string)

  /** `mimetype.split(';')[0]`: everything before the first `;`, or the whole string. */
  function BaseMimeType(mimetype: string): (base: string)
    ensures StartsWith(mimetype, base) && ';' !in base
    ensures ';' in mimetype ==> |base| == FirstIndex(mimetype, ';')
    ensures ';' !in mimetype ==> base == mimetype
  {
    SplitRule(mimetype, ';');
    Split(mimetype, ';')[0]
  }

  /** `fileFilter` for a file of type `mimetype`. */
  function FileFilter(mimetype: string): (d: Decision)
    ensures d.Accept? <==> BaseMimeType(mimetype) in AllowedMimeTypes
    ensures d.Reject? ==> d.message == InvalidFileType
  {
    if BaseMimeType(mimetype) in AllowedMimeTypes then Accept else Reject(InvalidFileType)
  }

  /** Parameters after the first `;` never change the decision. */
  lemma ParametersIgnored(base: string, parameters: string)
    requires ';' !in base
    ensures FileFilter(base + ";" + parameters) == FileFilter(base)
  {
    var m := base + ";" + parameters;
    assert m[..|base|] == base;
    FirstIndexAt(m, ';', |base|);
  }

  /** An allowed type stays accepted whatever parameters follow it. */
  lemma AcceptedWithParameters(base: string, parameters: string)
    requires base in AllowedMimeTypes && ';' !in base
    ensures FileFilter(base + ";" + parameters) == Accept
  {
    ParametersIgnored(base, parameters);
  }

  /** A recorder's `audio/webm;codecs=opus` is accepted. */
  lemma WebmWithCodecsAccepted()
    ensures FileFilter("audio/webm;codecs=opus") == Accept
  {
    var base := "audio/webm";
    assert AllowedMimeTypes[5] == base;
    AcceptedWithParameters(base, "codecs=opus");
    assert base + ";" + "codecs=opus" == "audio/webm;codecs=opus";
  }

  /** The comparison is case-sensitive: `AUDIO/MPEG` is rejected. */
  lemma UpperCaseRejected()
    ensures FileFilter("AUDIO/MPEG") == Reject(InvalidFileType)
  {
    assert BaseMimeType("AUDIO/MPEG") == "AUDIO/MPEG";
    assert forall k :: 0 <= k < |AllowedMimeTypes| ==> AllowedMimeTypes[k][0] == 'a';
  }

  /** Whatever its parameters, an accepted file's type begins with `audio/`. */
  lemma OnlyAudioAccepted(mimetype: string)
    requires FileFilter(mimetype).Accept?
    ensures StartsWith(mimetype, "audio/")
  {
    var base := BaseMimeType(mimetype);
    assert forall k :: 0 <= k < |AllowedMimeTypes| ==> StartsWith(AllowedMimeTypes[k], "audio/");
    assert StartsWith(base, "audio/");
    assert mimetype[..|base|] == base;
    assert mimetype[..6] == base[..6];
  }
}
