/** The Kraft sum of a list of code lengths, which decides whether a prefix code with those lengths exists. */
module KraftSum {

  /** 2 to the power -n. */
  ghost function Half(n: nat): real {
    if n == 0 then 1.0 else Half(n - 1) / 2.0
  }

  /** The sum of 2 to the power -length over the first k symbols: the Kraft sum. */
  ghost function Kraft(lens: seq<nat>): real {
    if lens == [] then 0.0 else Kraft(lens[..|lens| - 1]) + Half(lens[|lens| - 1])
  }
}
