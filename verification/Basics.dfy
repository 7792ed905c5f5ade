/** What every module of the model shares. */
module Basics {
  datatype Option<+T> = None | Some(value: T)

  function Abs(x: real): real { if x < 0.0 then -x else x }

  /** Upper case for ASCII letters. */
  function Upper(c: char): char { if 'a' <= c <= 'z' then c - 32 as char else c }
}
