/** Path strings, joined the way POSIX `os.path.join` joins two components. */
module Paths {

  /** Joins `base` and `part`: an absolute `part` replaces `base`; otherwise a
      single `/` separates them unless `base` is empty or already ends in `/`. */
  function Join(base: string, part: string): string {
    if |part| > 0 && part[0] == '/' then part
    else if base == [] || base[|base| - 1] == '/' then base + part
    else base + "/" + part
  }
}
