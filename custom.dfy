/** The output handling of `execute_custom_command` in `src/info/custom.rs`:
    the exit status decides between the command's output and an error; the
    output is decoded (invalid UTF-8 replaced), trimmed and cut to at most
    100 bytes. Running the shell is outside the model: its result is given
    as a `CommandOutcome`. */
module Custom {
  import opened Base
  import opened Text
  import Utf8

  /** What `Command::output()` gave: the process could not be started, or
      it ran with this exit status and these output streams. */
  datatype CommandOutcome = SpawnFailed | Exited(success: bool, stdout: seq<byte>, stderr: seq<byte>)

  /** A call that returns, or one that panics (a string slice that does not
      fall on a character boundary). */
  datatype Run<+T> = Returned(value: T) | Panicked

  /** The longest output kept unchanged, and the bytes kept from a longer one. */
  const MaxLen: nat := 100
  const KeptLen: nat := 97

  /** The number of characters of `s` that make up its first `n` bytes, when
      byte `n` is a character boundary; `None` when it is not (`&s[..n]`
      then panics). */
  function CharsInBytes(s: string, n: nat): (r: Option<nat>)
    requires n <= Utf8.ByteLen(s)
    ensures r.Some? ==> r.value <= |s| && Utf8.ByteLen(s[..r.value]) == n
    ensures r.None? ==> forall k :: 0 <= k <= |s| ==> Utf8.ByteLen(s[..k]) != n
  {
    if n == 0 then
      assert s[..0] == [];
      Some(0)
    else
      var w := Utf8.Width(s[0]);
      if w > n then
        assert forall k :: 0 <= k <= |s| ==> Utf8.ByteLen(s[..k]) != n by {
          forall k | 0 <= k <= |s| ensures Utf8.ByteLen(s[..k]) != n {
            ByteLenPrefix(s, k);
          }
        }
        Option.None
      else
        match CharsInBytes(s[1..], n - w)
        case Some(k) =>
          ByteLenPrefix(s, k + 1);
          assert s[1..][..k] == s[..k + 1][1..];
          Some(k + 1)
        case None =>
          assert forall k :: 0 <= k <= |s| ==> Utf8.ByteLen(s[..k]) != n by {
            forall k | 0 <= k <= |s| ensures Utf8.ByteLen(s[..k]) != n {
              ByteLenPrefix(s, k);
              if k > 0 {
                assert s[1..][..k - 1] == s[..k][1..];
              }
            }
          }
          Option.None
  }

  /** A non-empty prefix costs its first character's width plus the rest. */
  lemma ByteLenPrefix(s: string, k: nat)
    requires k <= |s|
    ensures k == 0 ==> Utf8.ByteLen(s[..k]) == 0
    ensures k > 0 ==> Utf8.ByteLen(s[..k]) == Utf8.Width(s[0]) + Utf8.ByteLen(s[..k][1..])
  {
  }

  /** The length limit applied to the trimmed output: kept when it has at
      most 100 bytes, else its first 97 bytes and "...". */
  function Truncate(result: string): (r: Run<string>)
    ensures Utf8.ByteLen(result) <= MaxLen ==> r == Returned(result)
    ensures r.Returned? ==> Utf8.ByteLen(r.value) <= MaxLen
    ensures r.Returned? && Utf8.ByteLen(result) > MaxLen ==>
              Utf8.ByteLen(r.value) == MaxLen
              && exists k :: 0 <= k <= |result| && r.value == result[..k] + "..."
    ensures r.Panicked? <==> Utf8.ByteLen(result) > MaxLen
                             && forall k :: 0 <= k <= |result| ==> Utf8.ByteLen(result[..k]) != KeptLen
  {
    if Utf8.ByteLen(result) > MaxLen then
      match CharsInBytes(result, KeptLen)
      case None => Panicked
      case Some(k) =>
        Utf8.ByteLenAppend(result[..k], "...");
        Utf8.ByteLenAscii("...");
        Returned(result[..k] + "...")
    else Returned(result)
  }

  /** `execute_custom_command` after the process has run. */
  function ExecuteCustomCommand(outcome: CommandOutcome): (r: Run<Result<string>>)
    ensures outcome.SpawnFailed? ==> r == Returned(Err(CommandSpawnFailed))
    ensures outcome.Exited? && !outcome.success
            ==> r == Returned(Err(CommandFailed(Trim(Utf8.DecodeLossy(outcome.stderr)))))
    ensures outcome.Exited? && outcome.success
            ==> match r
                case Panicked => Truncate(Trim(Utf8.DecodeLossy(outcome.stdout))).Panicked?
                case Returned(v) => v.Ok? && Truncate(Trim(Utf8.DecodeLossy(outcome.stdout))) == Returned(v.value)
  {
    match outcome
    case SpawnFailed => Returned(Err(CommandSpawnFailed))
    case Exited(success, stdout, stderr) =>
      if success then
        match Truncate(Trim(Utf8.DecodeLossy(stdout)))
        case Panicked => Panicked
        case Returned(text) => Returned(Ok(text))
      else Returned(Err(CommandFailed(Trim(Utf8.DecodeLossy(stderr)))))
  }

  /** A value from a successful command has at most 100 bytes and no
      whitespace at either end, unless it was cut. */
  lemma CustomValueShape(outcome: CommandOutcome)
    requires ExecuteCustomCommand(outcome).Returned? && ExecuteCustomCommand(outcome).value.Ok?
    ensures var v := ExecuteCustomCommand(outcome).value.value;
            Utf8.ByteLen(v) <= MaxLen
            && (Utf8.ByteLen(Trim(Utf8.DecodeLossy(outcome.stdout))) <= MaxLen ==> Trimmed(v))
  {
  }

  /** Output written as valid UTF-8 comes back as its own text, trimmed. */
  lemma ValidOutputKept(text: string, stderr: seq<byte>)
    requires Trimmed(text) && Utf8.ByteLen(text) <= MaxLen
    ensures ExecuteCustomCommand(Exited(true, Utf8.Encode(text), stderr)) == Returned(Ok(text))
  {
    Utf8.LossyEncode(text);
    TrimOfTrimmed(text);
  }

  /** ASCII output is never cut inside a character: every byte is a boundary. */
  lemma AsciiNeverPanics(result: string)
    requires forall k :: 0 <= k < |result| ==> result[k] as int < 0x80
    ensures Truncate(result).Returned?
  {
    if Utf8.ByteLen(result) > MaxLen {
      Utf8.ByteLenAscii(result);
      var p := result[..KeptLen];
      Utf8.ByteLenAscii(p);
    }
  }

  /** A character of two or more bytes that starts at byte 96 straddles byte
      97, so a long enough output panics. */
  lemma SplitCharacterPanics(a: string, c: char, b: string)
    requires |a| == 96 && forall k :: 0 <= k < |a| ==> a[k] as int < 0x80
    requires Utf8.Width(c) >= 2
    requires Utf8.ByteLen(a + [c] + b) > MaxLen
    ensures Truncate(a + [c] + b).Panicked?
  {
    var s := a + [c] + b;
    Utf8.ByteLenAscii(a);
    forall k | 0 <= k <= |s|
      ensures Utf8.ByteLen(s[..k]) != KeptLen
    {
      if k <= 96 {
        assert s[..k] == a[..k];
        Utf8.ByteLenAscii(a[..k]);
      } else {
        assert s[..k] == a + [c] + s[97..k];
        Utf8.ByteLenAppend(a + [c], s[97..k]);
        Utf8.ByteLenAppend(a, [c]);
      }
    }
  }

  /** For instance 96 letters, "é", then ten more letters. */
  lemma SplitCharacterExample()
    ensures Truncate(Repeat('a', 96) + "é" + Repeat('a', 10)).Panicked?
  {
    var a, b := Repeat('a', 96), Repeat('a', 10);
    SampleByteLen(a, b);
    SplitCharacterPanics(a, 'é', b);
  }

  lemma SampleByteLen(a: string, b: string)
    requires a == Repeat('a', 96) && b == Repeat('a', 10)
    ensures Utf8.Width('é') == 2 && Utf8.ByteLen(a + "é" + b) == 108
  {
    Utf8.ByteLenAppend(a + "é", b);
    Utf8.ByteLenAppend(a, "é");
    Utf8.ByteLenAscii(a);
    Utf8.ByteLenAscii(b);
    assert Utf8.ByteLen("é") == 2;
  }
}
