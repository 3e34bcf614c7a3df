/** Standard output as a buffer of lines. */
module Console {

  class Stdout {
    /** The argument of every `Println` so far, without the newline it adds. An
        argument holding a newline of its own stands for more than one terminal line. */
    var lines: seq<string>

    constructor ()
      ensures lines == []
    {
      lines := [];
    }

    /** `fmt.Println(line)`; `fmt.Println()` is `Println("")`. */
    method Println(line: string)
      modifies this
      ensures lines == old(lines) + [line]
    {
      lines := lines + [line];
    }
  }
}
