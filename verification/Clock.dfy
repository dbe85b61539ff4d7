module Clock {
  type Seconds = s: real | s >= 0.0
}
