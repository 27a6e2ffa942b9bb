/**
  Text as it crosses the C boundary.

  Engine text is a NUL-terminated byte buffer; the model keeps the bytes
  before the terminator. Host text handed to the engine goes through
  `CString::new(..).unwrap()`, which panics when the text holds a NUL.
*/
module CText {
  import opened Errors

  newtype byte = b: int | 0 <= b < 0x100

  /** The bytes of an engine C string, up to (not including) its terminator. */
  type Bytes = seq<byte>

  /**
    How the library turns engine bytes into host text
    (`CStr::to_string_lossy`). Lossy UTF-8 decoding is not modelled; every
    operation that decodes text takes the decoder as a parameter.
  */
  type TextDecoder = Bytes -> string

  /** `CString::new(s).unwrap()`: the engine receives `s`, unless `s` holds a NUL. */
  function CStringNew(s: string): (r: Call<string>)
    ensures r.Returns? <==> (forall i | 0 <= i < |s| :: s[i] != '\0')
    ensures r.Returns? ==> r.value == s
    ensures r.Panics? ==> r.fault == InteriorNul
  {
    if '\0' in s then Panics(InteriorNul) else Returns(s)
  }
}
