/** The two vocabularies for websocket fragments and the translation between them. */
module WebSocketTypes {

  /** WinHTTP's WINHTTP_WEB_SOCKET_BUFFER_TYPE. */
  datatype BufferType = BinaryMessage | BinaryFragment | Utf8Message | Utf8Fragment | CloseBuffer

  /** The flags IIS hands over with a fragment. */
  datatype Flags = Flags(utf8: bool, final: bool, close: bool)

  function GetFlagsFromBufferType(t: BufferType): Flags {
    match t
    case BinaryMessage => Flags(false, true, false)
    case BinaryFragment => Flags(false, false, false)
    case Utf8Message => Flags(true, true, false)
    case Utf8Fragment => Flags(true, false, false)
    case CloseBuffer => Flags(false, false, true)
  }

  function GetBufferTypeFromFlags(f: Flags): BufferType {
    if f.close then CloseBuffer
    else if f.utf8 then if f.final then Utf8Message else Utf8Fragment
    else if f.final then BinaryMessage else BinaryFragment
  }

  /** A fragment as its receiver understands it. */
  datatype Fragment = Data(bytes: seq<nat>, utf8: bool, final: bool) | Close

  function FromFlags(bytes: seq<nat>, f: Flags): Fragment {
    if f.close then Close else Data(bytes, f.utf8, f.final)
  }

  function FromType(bytes: seq<nat>, t: BufferType): Fragment {
    if t == CloseBuffer then Close
    else Data(bytes, t == Utf8Message || t == Utf8Fragment, t == BinaryMessage || t == Utf8Message)
  }

  /** The translation keeps the meaning of every fragment in both directions; read as flags it is
      undone exactly when a close carries neither of the other two flags. */
  lemma TranslationKeepsMeaning(bytes: seq<nat>, t: BufferType, f: Flags)
    ensures FromFlags(bytes, GetFlagsFromBufferType(t)) == FromType(bytes, t)
    ensures FromType(bytes, GetBufferTypeFromFlags(f)) == FromFlags(bytes, f)
    ensures GetBufferTypeFromFlags(GetFlagsFromBufferType(t)) == t
    ensures GetFlagsFromBufferType(GetBufferTypeFromFlags(f)) == f <==> (f.close ==> !f.utf8 && !f.final)
  {
  }
}
