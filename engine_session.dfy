/**
 * The engine session's read side: after each command the script sends
 * `isready` and reads the engine's standard output line by line until the
 * engine answers `readyok`. The pipe is modelled as the finite sequence of
 * raw lines (each as `readline` returns it) that the engine will emit.
 */
module EngineSession {
  import opened PyStr

  /** The engine's answer to `isready`: the end of one logical reply. */
  const Sentinel: string := "readyok"

  /**
   * `get()`: the lines read before the first line that is `readyok` once its
   * trailing whitespace is stripped, each line stripped, blank lines kept.
   * `found` is false when the stream ends without a sentinel (the script
   * would block or loop there); then the whole stream has been read.
   * `rest` is what the pipe still holds for the next command.
   */
  method Get(stream: seq<string>) returns (found: bool, output: seq<string>, rest: seq<string>)
    ensures |output| <= |stream|
    ensures forall k :: 0 <= k < |output| ==> output[k] == RStrip(stream[k]) && output[k] != Sentinel
    ensures found ==> |output| < |stream| && RStrip(stream[|output|]) == Sentinel && rest == stream[|output| + 1..]
    ensures !found ==> |output| == |stream| && rest == []
  {
    output := [];
    var i := 0;
    while i < |stream|
      invariant i == |output| <= |stream|
      invariant forall k :: 0 <= k < i ==> output[k] == RStrip(stream[k]) && output[k] != Sentinel
    {
      var text := RStrip(stream[i]);
      if text == Sentinel {
        found, rest := true, stream[i + 1..];
        return;
      }
      output := output + [text];
      i := i + 1;
    }
    found, rest := false, [];
  }
}
