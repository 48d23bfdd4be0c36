/** lib/validation.ts: the checks on the vibe text and the city the user
    picked, and the translation of a caught error into a message. */
module Validation {
  import opened Wrappers
  import opened Text

  /** `{ valid, error? }`. */
  datatype Check = Check(valid: bool, error: Option<string>)

  const DescribeMessage: string := "Por favor describe qué tipo de experiencia buscas"
  const TooLongMessage: string := "El texto es demasiado largo. Máximo 500 caracteres."
  const MoreDetailMessage: string := "Por favor proporciona más detalles sobre tu vibra"
  const SelectCityMessage: string := "Por favor selecciona una ciudad"
  const InvalidCityMessage: string := "Ciudad no válida"

  /** `validateVibeText`: blank text first (whatever its length), then more
      than 500 UTF-16 units, then fewer than 3; lengths are of the text as
      typed, not trimmed. */
  function ValidateVibeText(text: string): (r: Check)
    ensures r.valid <==> !IsBlank(text) && 3 <= Utf16Length(text) <= 500
    ensures r.valid <==> r.error.None?
    ensures IsBlank(text) ==> r.error == Some(DescribeMessage)
    ensures !IsBlank(text) && Utf16Length(text) > 500 ==> r.error == Some(TooLongMessage)
    ensures !IsBlank(text) && Utf16Length(text) < 3 ==> r.error == Some(MoreDetailMessage)
  {
    TrimEmptyIffBlank(text);
    if text == "" || |Trim(text)| == 0 then Check(false, Some(DescribeMessage))
    else if Utf16Length(text) > 500 then Check(false, Some(TooLongMessage))
    else if Utf16Length(text) < 3 then Check(false, Some(MoreDetailMessage))
    else Check(true, None)
  }

  /** A long run of spaces is reported as missing, not as too long. */
  lemma BlankBeforeLength(n: nat)
    ensures ValidateVibeText(seq(n, i => ' ')).error == Some(DescribeMessage)
  {
    var text := seq(n, i => ' ');
    assert IsBlank(text) by {
      forall i | 0 <= i < |text| ensures IsWhitespace(text[i]) {
        assert text[i] == ' ';
      }
    }
  }

  const ValidCities: seq<string> := ["ciudad-victoria", "monterrey", "cdmx", "guadalajara"]

  /** `validateCity`. */
  function ValidateCity(cityId: string): (r: Check)
    ensures r.valid <==> cityId in ValidCities
    ensures r.valid <==> r.error.None?
    ensures cityId == "" ==> r.error == Some(SelectCityMessage)
    ensures cityId != "" && cityId !in ValidCities ==> r.error == Some(InvalidCityMessage)
  {
    if cityId == "" then Check(false, Some(SelectCityMessage))
    else if cityId !in ValidCities then Check(false, Some(InvalidCityMessage))
    else Check(true, None)
  }

  const NetworkError: string := "Error de conexión. Verifica tu internet e intenta de nuevo."
  const TimeoutError: string := "La solicitud tardó demasiado. Intenta de nuevo."
  const RateLimitError: string := "Demasiadas solicitudes. Espera un momento e intenta de nuevo."
  const UnknownError: string := "Algo salió mal. Intenta de nuevo."

  /** What a `catch` can hold: an `Error` with its message, a string, or
      anything else. */
  datatype Thrown = ErrorObject(message: string) | StringValue(text: string) | OtherValue

  /** `getErrorMessage`: an `Error` mentioning "fetch", "timeout" or "rate
      limit" (checked in that order) gets the matching translation, any
      other `Error` its own message; a string is returned as it is;
      anything else is an unknown error. */
  function GetErrorMessage(e: Thrown): (r: string)
    ensures e.ErrorObject? && Contains(e.message, "fetch") ==> r == NetworkError
    ensures e.ErrorObject? && !Contains(e.message, "fetch") && Contains(e.message, "timeout") ==> r == TimeoutError
    ensures (e.ErrorObject? && !Contains(e.message, "fetch") && !Contains(e.message, "timeout") &&
             Contains(e.message, "rate limit")) ==> r == RateLimitError
    ensures (e.ErrorObject? && !Contains(e.message, "fetch") && !Contains(e.message, "timeout") &&
             !Contains(e.message, "rate limit")) ==> r == e.message
    ensures e.StringValue? ==> r == e.text
    ensures e.OtherValue? ==> r == UnknownError
  {
    match e
    case ErrorObject(message) =>
      if Contains(message, "fetch") then NetworkError
      else if Contains(message, "timeout") then TimeoutError
      else if Contains(message, "rate limit") then RateLimitError
      else message
    case StringValue(text) => text
    case OtherValue => UnknownError
  }

  /** A message naming both a failed fetch and a timeout is reported as a
      network error: the first matching check wins. */
  lemma FetchBeforeTimeout(before: string, middle: string, after: string)
    ensures GetErrorMessage(ErrorObject(before + "fetch" + middle + "timeout" + after)) == NetworkError
  {
    var m := before + "fetch" + middle + "timeout" + after;
    ContainsIffOccurs(m, "fetch");
    assert OccursAt(m, "fetch", |before|);
  }
}
