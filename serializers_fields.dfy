/** `Base64ImageField.to_internal_value`: the header handling of an image
    sent as a `data:` URL (RFC 2397, section 3), before the image itself is
    validated. Base64 decoding (RFC 4648, section 4) is a parameter: the
    model says which text is decoded and what is done with the outcome, not
    how the alphabet is decoded. */
module SerializersFields {
  import opened Util
  import opened Text

  /** What the field receives: a JSON string, or any other JSON value. */
  datatype Incoming = Str(s: string) | NonString(json: string)

  /** What is handed on to the image field's own validation. */
  datatype Handed = Unchanged(data: Incoming) | File(name: string, content: seq<Byte>)

  /** Unpacking `format, imgstr = ...split(';base64,')` fails unless there
      are exactly two pieces; `b64decode` fails on malformed input. */
  datatype FieldError = UnpackError | DecodeError

  const ImagePrefix := "data:image"
  const Base64Marker := ";base64,"

  /** `format.split('/')[-1]`: what follows the last `/` (the whole text
      when it has none). */
  function LastSegment(format: string): (ext: string)
    ensures !Contains(ext, "/") && EndsWith(format, ext)
    ensures Contains(format, "/") ==> EndsWithAfter(format, '/', ext)
    ensures !Contains(format, "/") ==> ext == format
  {
    LastPieceEnds(format, "/");
    SplitPiecesClean(format, "/");
    if Contains(format, "/") then
      LastPieceAfterSep(format, "/");
      EndsWithChar(format, '/', LastPiece(format, "/"));
      LastPiece(format, "/")
    else
      SplitWithout(format, "/");
      LastPiece(format, "/")
  }

  function ToInternalValue(data: Incoming, b64decode: string -> Option<seq<Byte>>): (r: Result<Handed, FieldError>)
    ensures !(data.Str? && StartsWith(data.s, ImagePrefix)) ==> r == Ok(Unchanged(data))
    ensures data.Str? && StartsWith(data.s, ImagePrefix) ==>
      (r == Err(UnpackError) <==> |Split(data.s, Base64Marker)| != 2)
    ensures r.Ok? && r.value.File? ==>
      var parts := Split(data.s, Base64Marker);
      |parts| == 2
      && r.value.name == "temp." + LastSegment(parts[0])
      && b64decode(parts[1]) == Some(r.value.content)
    ensures r == Err(DecodeError) ==> b64decode(Split(data.s, Base64Marker)[1]).None?
    ensures data.Str? && StartsWith(data.s, ImagePrefix) && |Split(data.s, Base64Marker)| == 2 ==>
      var parts := Split(data.s, Base64Marker);
      match b64decode(parts[1])
      case None => r == Err(DecodeError)
      case Some(bytes) => r == Ok(File("temp." + LastSegment(parts[0]), bytes))
  {
    if data.Str? && StartsWith(data.s, ImagePrefix) then
      var parts := Split(data.s, Base64Marker);
      if |parts| != 2 then Err(UnpackError)
      else
        var format, imgstr := parts[0], parts[1];
        var ext := LastSegment(format);
        match b64decode(imgstr)
        case None => Err(DecodeError)
        case Some(bytes) => Ok(File("temp." + ext, bytes))
    else
      Ok(Unchanged(data))
  }

  /** A character other than `;` cannot start `;base64,`. */
  lemma NoMarkerWithoutSemicolon(t: string)
    requires ';' !in t
    ensures !Contains(t, Base64Marker)
  {
    forall k | 0 <= k <= |t| - |Base64Marker| ensures !OccursAt(t, Base64Marker, k) {
      assert t[k..k + |Base64Marker|][0] == t[k];
    }
  }

  /** No `;base64,` starts inside a prefix without `;`. */
  lemma NoMarkerInPrefix(format: string, payload: string)
    requires ';' !in format
    ensures forall j :: 0 <= j < |format| ==> !OccursAt(format + Base64Marker + payload, Base64Marker, j)
  {
    var s := format + Base64Marker + payload;
    forall j | 0 <= j < |format| ensures !OccursAt(s, Base64Marker, j) {
      assert s[j] == format[j];
      if j + |Base64Marker| <= |s| {
        assert s[j..j + |Base64Marker|][0] == s[j];
      }
    }
  }

  /** The only `;base64,` in `data:image/<subtype>;base64,<payload>` is the
      one between the two, when neither holds a `;`. */
  lemma SplitDataUrl(subtype: string, payload: string)
    requires ';' !in subtype && ';' !in payload
    ensures Split("data:image/" + subtype + Base64Marker + payload, Base64Marker)
         == ["data:image/" + subtype, payload]
  {
    var format := "data:image/" + subtype;
    assert ';' !in format by {
      assert forall c :: c in format ==> c in "data:image/" || c in subtype;
    }
    NoMarkerInPrefix(format, payload);
    NoMarkerWithoutSemicolon(payload);
    SplitAround(format, Base64Marker, payload);
  }

  /** The extension of `data:image/<subtype>` is `<subtype>` when it has no `/`. */
  lemma ImageSubtypeIsExtension(subtype: string)
    requires '/' !in subtype
    ensures LastSegment("data:image/" + subtype) == subtype
  {
    var head := "data:image";
    assert "data:image/" + subtype == head + "/" + subtype;
    assert forall j :: 0 <= j < |head| ==> !OccursAt(head + "/" + subtype, "/", j) by {
      var s := head + "/" + subtype;
      forall j | 0 <= j < |head| ensures !OccursAt(s, "/", j) {
        assert s[j..j + 1][0] == s[j] == head[j];
      }
    }
    assert !Contains(subtype, "/") by {
      forall j | 0 <= j < |subtype| ensures !OccursAt(subtype, "/", j) {
        assert subtype[j..j + 1][0] == subtype[j];
      }
    }
    SplitAround(head, "/", subtype);
  }

  /** Round trip: the file built from `data:image/<subtype>;base64,<payload>`
      is named `temp.<subtype>` and holds the decoding of `<payload>`. */
  lemma DataUrlRoundTrip(subtype: string, payload: string, b64decode: string -> Option<seq<Byte>>)
    requires ';' !in subtype && '/' !in subtype && ';' !in payload
    ensures var r := ToInternalValue(Str("data:image/" + subtype + Base64Marker + payload), b64decode);
      match b64decode(payload)
      case None => r == Err(DecodeError)
      case Some(bytes) => r == Ok(File("temp." + subtype, bytes))
  {
    var s := "data:image/" + subtype + Base64Marker + payload;
    assert StartsWith(s, ImagePrefix) by { assert s[..|ImagePrefix|] == ImagePrefix; }
    SplitDataUrl(subtype, payload);
    ImageSubtypeIsExtension(subtype);
  }

  /** An image header without `;base64,` cannot be unpacked. */
  lemma MissingMarkerRejected(s: string, b64decode: string -> Option<seq<Byte>>)
    requires StartsWith(s, ImagePrefix) && !Contains(s, Base64Marker)
    ensures ToInternalValue(Str(s), b64decode) == Err(UnpackError)
  {
    SplitWithout(s, Base64Marker);
  }
}
