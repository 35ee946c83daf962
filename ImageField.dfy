/**
 * `Base64ImageField.to_internal_value` (backend/api/serializers.py): a
 * string starting with `data:image` is cut at `;base64,` into a format part
 * and the base64 text, and the file name is `temp.` followed by whatever
 * follows the last `/` of the format part. Anything else is passed on
 * untouched.
 */
module ImageField {
  import opened Common
  import opened Strings

  /** What arrives in the `image` field: a string, or some other JSON value. */
  datatype Incoming = Text(s: string) | NotText

  /**
   * What is handed on to `ImageField.to_internal_value`: the value as it came,
   * or the base64 text to decode together with the file name to give it.
   */
  datatype Internal = Passthrough(data: Incoming) | Decoded(base64: string, name: string)

  /** `format, imgstr = data.split(';base64,')` found other than exactly one marker (a `ValueError`). */
  datatype ImageError = MarkerCount(pieces: nat)

  const DataImagePrefix: string := "data:image"
  const Base64Marker: string := ";base64,"

  /** `format.split('/')[-1]` */
  function Extension(format: string): (ext: string)
    ensures !Contains(ext, "/")
    ensures ext == format || exists before :: format == before + "/" + ext
  {
    var parts := Split(format, "/");
    SplitPartsAreFree(format, "/");
    SplitLast(format, "/");
    parts[|parts| - 1]
  }

  function ToInternalValue(data: Incoming): (r: Result<Internal, ImageError>)
    ensures !(data.Text? && StartsWith(data.s, DataImagePrefix)) ==> r == Ok(Passthrough(data))
    ensures data.Text? && StartsWith(data.s, DataImagePrefix) ==>
              (r.Ok? <==> |Split(data.s, Base64Marker)| == 2)
    ensures data.Text? && StartsWith(data.s, DataImagePrefix) && r.Ok? ==> r.value.Decoded?
    ensures data.Text? && StartsWith(data.s, DataImagePrefix) && r.Err? ==>
              r.error == MarkerCount(|Split(data.s, Base64Marker)|)
    ensures r.Ok? && r.value.Decoded? ==>
              data.Text? && StartsWith(data.s, DataImagePrefix) &&
              !Contains(r.value.base64, Base64Marker) &&
              exists format :: data.s == format + Base64Marker + r.value.base64 &&
                               !Contains(format, Base64Marker) &&
                               r.value.name == "temp." + Extension(format)
  {
    if data.Text? && StartsWith(data.s, DataImagePrefix) then
      var parts := Split(data.s, Base64Marker);
      if |parts| != 2 then Err(MarkerCount(|parts|))
      else
        var format, imgstr := parts[0], parts[1];
        SplitJoinRoundTrip(data.s, Base64Marker);
        SplitPartsAreFree(data.s, Base64Marker);
        assert data.s == format + Base64Marker + imgstr;
        Ok(Decoded(imgstr, "temp." + Extension(format)))
    else Ok(Passthrough(data))
  }

  /** A data URI with one marker comes apart into its format and payload. */
  lemma DataUriRoundTrip(mime: string, payload: string)
    requires StartsWith(mime, DataImagePrefix)
    requires forall i :: 0 <= i < |mime| ==> mime[i] != ';'
    requires forall i :: 0 <= i < |payload| ==> payload[i] != ';'
    ensures ToInternalValue(Text(mime + Base64Marker + payload)) ==
              Ok(Decoded(payload, "temp." + Extension(mime)))
  {
    var s := mime + Base64Marker + payload;
    assert s[..|DataImagePrefix|] == mime[..|DataImagePrefix|];
    var p := mime + Base64Marker[..|Base64Marker| - 1];
    forall k | 0 <= k <= |p|
      ensures !OccursAt(p, Base64Marker, k)
    {
      if k + |Base64Marker| <= |p| {
        assert k < |mime|;
        assert p[k..k + |Base64Marker|][0] == mime[k];
      }
    }
    forall k | 0 <= k <= |payload|
      ensures !OccursAt(payload, Base64Marker, k)
    {
      if k + |Base64Marker| <= |payload| {
        assert payload[k..k + |Base64Marker|][0] == payload[k];
      }
    }
    SplitInTwo(mime, Base64Marker, payload);
  }
}
