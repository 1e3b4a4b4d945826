/** The two kinds of output the generators write to: an in-memory buffer
    (`bytes.Buffer`, `strings.Builder`) whose writes always succeed, and an
    `io.Writer` supplied by the caller, whose writes may fail. Text is a
    sequence of characters. */
module Io {
  import opened Wrappers

  /** An in-memory buffer: every write appends. */
  class Buffer {
    var contents: string

    constructor ()
      ensures contents == ""
    {
      contents := "";
    }

    method WriteString(s: string)
      modifies this
      ensures contents == old(contents) + s
    {
      contents := contents + s;
    }
  }

  /** A writer with a fixed amount of room left (a full disk, a closed pipe):
      a write that fits is accepted whole, one that does not fit is refused
      with `reason` and writes nothing. */
  class Writer {
    var data: string
    var room: nat
    const reason: string

    constructor (room: nat, reason: string)
      ensures data == "" && this.room == room && this.reason == reason
    {
      data := "";
      this.room := room;
      this.reason := reason;
    }

    /** `w.Write`: the error, if any. */
    method Write(s: string) returns (err: Option<string>)
      modifies this
      ensures err.None? <==> |s| <= old(room)
      ensures err.Some? ==> err.value == reason
      ensures data == (if err.None? then old(data) + s else old(data))
      ensures room == (if err.None? then old(room) - |s| else old(room))
    {
      if |s| <= room {
        data, room := data + s, room - |s|;
        err := None;
      } else {
        err := Some(reason);
      }
    }
  }
}
