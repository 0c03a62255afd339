/** Error messages in a fixed C buffer (bootstrapFailure in sdk/go/bootstrap_callbacks.go, and the
    readers: C.GoString in session.go, Callbacks::call in bootstrap_callbacks.rs). */
module ErrorText {
  const CORE_ERROR := 3

  /** ItofinError: a status code and a buffer of bytes, 1024 of them in the code. */
  class ErrorRecord {
    var code: int
    const message: array<nat>

    constructor (size: nat)
      requires size > 0
      ensures message.Length == size && fresh(message)
    {
      code := 0;
      message := new nat[size](_ => 0);
    }

    /** bootstrapFailure. What the buffer held before, beyond the terminator, stays. */
    method Fail(text: seq<nat>) returns (status: int)
      requires message.Length > 0
      modifies this, message
      ensures status == code == CORE_ERROR
      ensures CString(message[..]) == Printable(text[..Kept(text, message.Length)])
      ensures var read := CString(message[..]);
              && |read| == (if |text| < message.Length then |text| else message.Length - 1)
              && forall i :: 0 <= i < |read| ==> read[i] == if text[i] == 0 then '?' as nat else text[i]
      ensures |text| < message.Length && (forall i :: 0 <= i < |text| ==> text[i] != 0) ==> CString(message[..]) == text
      ensures forall i :: Kept(text, message.Length) < i < message.Length ==> message[i] == old(message[i])
    {
      code := CORE_ERROR;
      var bytes := text;
      if |bytes| > message.Length - 1 {
        bytes := bytes[..message.Length - 1];
      }
      for i := 0 to |bytes|
        invariant message[..i] == Printable(bytes[..i])
        invariant code == CORE_ERROR
        invariant forall j :: i <= j < message.Length ==> message[j] == old(message[j])
      {
        var b := bytes[i];
        if b == 0 {
          b := QUESTION_MARK;
        }
        message[i] := b;
        assert Printable(bytes[..i + 1]) == Printable(bytes[..i]) + [b];
      }
      message[|bytes|] := 0;
      status := code;
      assert bytes[..|bytes|] == bytes == text[..Kept(text, message.Length)];
      assert message[..] == Printable(bytes) + [0] + message[|bytes| + 1..];
      ReadToTerminator(Printable(bytes), message[|bytes| + 1..]);
      if |text| < message.Length && forall i :: 0 <= i < |text| ==> text[i] != 0 {
        TextSurvives(text, message.Length);
      }
    }
  }

  const QUESTION_MARK: nat := 63

  /** How many bytes of the text fit before the terminator. */
  function Kept(text: seq<nat>, size: nat): (k: nat)
    requires size > 0
    ensures k <= |text| && k < size
  {
    if |text| > size - 1 then size - 1 else |text|
  }

  function Printable(text: seq<nat>): seq<nat> {
    seq(|text|, i requires 0 <= i < |text| => if text[i] == 0 then QUESTION_MARK else text[i])
  }

  /** What a C string reader takes from a buffer: everything before the first NUL. */
  function CString(buffer: seq<nat>): seq<nat> {
    if buffer == [] || buffer[0] == 0 then [] else [buffer[0]] + CString(buffer[1..])
  }

  lemma {:induction false} ReadToTerminator(text: seq<nat>, rest: seq<nat>)
    requires forall i :: 0 <= i < |text| ==> text[i] != 0
    ensures CString(text + [0] + rest) == text
    decreases text
  {
    var buffer := text + [0] + rest;
    if text != [] {
      assert buffer[1..] == text[1..] + [0] + rest;
      ReadToTerminator(text[1..], rest);
    }
  }

  /** A text that fits and has no NUL is read back unchanged. */
  lemma TextSurvives(text: seq<nat>, size: nat)
    requires |text| < size && forall i :: 0 <= i < |text| ==> text[i] != 0
    ensures Printable(text[..Kept(text, size)]) == text
  {
    assert text[..|text|] == text;
  }
}
