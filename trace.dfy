/**
 * The trace the relay prints for every chunk it forwards (Trance::trace_client and
 * Trance::trace_server).  The payload is the transfer buffer printed with
 * `cout << buf`, that is, as a C string: everything before the first NUL.
 */
module Trace {
  import opened Outcomes

  const NUL: char := '\0'

  /** What `cout << buf` prints for a char buffer. */
  function CString(buf: seq<char>): (s: seq<char>)
    ensures s <= buf
    ensures NUL !in s
    ensures |s| < |buf| ==> buf[|s|] == NUL
  {
    if buf == [] || buf[0] == NUL then [] else [buf[0]] + CString(buf[1..])
  }

  /** The three facts in CString's contract pin the printed text down uniquely. */
  lemma {:induction false} CStringUnique(buf: seq<char>, s: seq<char>)
    requires s <= buf && NUL !in s
    requires |s| < |buf| ==> buf[|s|] == NUL
    ensures CString(buf) == s
  {
    if s != [] {
      assert buf[0] == s[0] && s[0] != NUL;
      assert s[1..] <= buf[1..];
      CStringUnique(buf[1..], s[1..]);
    }
  }

  /** The bytes after the first NUL never reach the output. */
  lemma CStringStopsAtNul(data: seq<char>, rest: seq<char>)
    ensures CString(data + [NUL] + rest) == CString(data)
  {
    var s := CString(data);
    var b := data + [NUL] + rest;
    assert b[..|data|] == data;
    if |s| == |data| {
      assert b[|s|] == NUL;
    }
    CStringUnique(b, s);
  }

  /** A buffer without NUL is printed as it is. */
  lemma CStringOfText(s: seq<char>)
    requires NUL !in s
    ensures CString(s) == s
  {
    CStringUnique(s, s);
  }

  /** trace_client: red banner `<[` when colour is on, plain `<[` otherwise. */
  function TraceClient(color: bool, buf: seq<char>): (out: string)
  {
    if color then ("\U{1B}[31m" + "<[\n") + CString(buf) + ("]" + "\U{1B}[0m" + "\n")
    else "<[\n" + CString(buf) + ("]" + "\n")
  }

  /** trace_server: blue banner `<[` when colour is on, plain `>[` otherwise. */
  function TraceServer(color: bool, buf: seq<char>): (out: string)
  {
    if color then ("\U{1B}[34m" + "<[\n") + CString(buf) + ("]" + "\U{1B}[0m" + "\n")
    else ">[\n" + CString(buf) + ("]" + "\n")
  }

  const ClientOpenColored: string := ['\U{1B}', '[', '3', '1', 'm', '<', '[', '\n']
  const ServerOpenColored: string := ['\U{1B}', '[', '3', '4', 'm', '<', '[', '\n']
  const ClientOpenPlain: string := ['<', '[', '\n']
  const ServerOpenPlain: string := ['>', '[', '\n']
  const CloseColored: string := [']', '\U{1B}', '[', '0', 'm', '\n']
  const ClosePlain: string := [']', '\n']

  /** The banner that opens a client (true) or server (false) block. */
  function Opening(color: bool, client: bool): (banner: string)
  {
    if client then (if color then ClientOpenColored else ClientOpenPlain)
    else (if color then ServerOpenColored else ServerOpenPlain)
  }

  /** The text that closes a block. */
  function Closing(color: bool): (closing: string)
  {
    if color then CloseColored else ClosePlain
  }

  /**
   * Reads a trace block back: whether it is a client block (true) or a server
   * block (false), and the payload between the banner and the closing bracket.
   */
  function Untrace(color: bool, out: string): (r: Option<(bool, string)>)
  {
    var n := |Opening(color, true)|;
    var m := |Closing(color)|;
    if |out| < n + m || out[|out| - m..] != Closing(color) then None
    else if out[..n] == Opening(color, true) then Some((true, out[n..|out| - m]))
    else if out[..n] == Opening(color, false) then Some((false, out[n..|out| - m]))
    else None
  }

  /** Trace text as banner, C string and closing text. */
  lemma TraceShape(color: bool, buf: seq<char>)
    ensures TraceClient(color, buf) == Opening(color, true) + CString(buf) + Closing(color)
    ensures TraceServer(color, buf) == Opening(color, false) + CString(buf) + Closing(color)
  {
    assert "\U{1B}[31m" + "<[\n" == ClientOpenColored;
    assert "\U{1B}[34m" + "<[\n" == ServerOpenColored;
    assert "]" + "\U{1B}[0m" + "\n" == CloseColored;
    assert "]" + "\n" == ClosePlain;
  }

  /** Every client block is read back as a client block showing the buffer's C string. */
  lemma UntraceClient(color: bool, buf: seq<char>)
    ensures Untrace(color, TraceClient(color, buf)) == Some((true, CString(buf)))
  {
    TraceShape(color, buf);
    var out := TraceClient(color, buf);
    var p := CString(buf);
    var n, m := |Opening(color, true)|, |Closing(color)|;
    assert out[..n] == Opening(color, true);
    assert out[|out| - m..] == Closing(color);
    assert out[n..|out| - m] == p;
  }

  /** Every server block is read back as a server block showing the buffer's C string. */
  lemma UntraceServer(color: bool, buf: seq<char>)
    ensures Untrace(color, TraceServer(color, buf)) == Some((false, CString(buf)))
  {
    TraceShape(color, buf);
    var out := TraceServer(color, buf);
    var p := CString(buf);
    var n, m := |Opening(color, false)|, |Closing(color)|;
    assert out[..n] == Opening(color, false);
    assert out[..n] != Opening(color, true) by {
      if color { assert out[3] == '4'; } else { assert out[0] == '>'; }
    }
    assert out[|out| - m..] == Closing(color);
    assert out[n..|out| - m] == p;
  }

  /** What a block that reads back successfully is made of. */
  lemma UntraceParts(color: bool, out: string, client: bool, payload: string)
    requires Untrace(color, out) == Some((client, payload))
    ensures out == Opening(color, client) + payload + Closing(color)
  {
    var n, m := |Opening(color, true)|, |Closing(color)|;
    UntraceFields(color, out, client, payload);
    ThreeParts(out, n, |out| - m);
  }

  /** The banner, payload and closing text of a block that reads back successfully, in place. */
  lemma UntraceFields(color: bool, out: string, client: bool, payload: string)
    requires Untrace(color, out) == Some((client, payload))
    ensures var n, m := |Opening(color, true)|, |Closing(color)|;
            && |out| >= n + m
            && out[..n] == Opening(color, client)
            && out[n..|out| - m] == payload
            && out[|out| - m..] == Closing(color)
  {
    assert |Opening(color, false)| == |Opening(color, true)|;
  }

  lemma ThreeParts(s: string, i: int, j: int)
    requires 0 <= i <= j <= |s|
    ensures s == s[..i] + s[i..j] + s[j..]
  {
  }

  /** A block that reads back with a NUL-free payload is exactly the trace of that payload. */
  lemma UntraceInverse(color: bool, out: string, client: bool, payload: string)
    requires Untrace(color, out) == Some((client, payload))
    requires NUL !in payload
    ensures out == (if client then TraceClient(color, payload) else TraceServer(color, payload))
  {
    UntraceParts(color, out, client, payload);
    CStringOfText(payload);
    TraceShape(color, payload);
  }

  /** In either colour mode the direction of a chunk can be told from its trace. */
  lemma TraceDirectionsDiffer(color: bool, a: seq<char>, b: seq<char>)
    ensures TraceClient(color, a) != TraceServer(color, b)
  {
    UntraceClient(color, a);
    UntraceServer(color, b);
  }
}
