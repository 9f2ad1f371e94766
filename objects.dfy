/** The object metadata that both the dual writer and the watch set look at.
    The Kubernetes object is abstracted to its metadata plus an opaque payload. */
module Objects {
  import opened Common

  type StringMap = map<string, string>

  /** annotations is None for Go's nil map, which cannot be written to;
      labels are only ever replaced as a whole, so nil and empty coincide. */
  datatype Obj = Obj(
    name: string,
    namespace: string,
    resourceVersion: string,
    uid: string,
    labels: StringMap,
    annotations: Option<StringMap>,
    payload: string)

  /** What a read of the annotations map yields: a nil map reads as empty. */
  function AnnotationsOf(o: Obj): StringMap {
    if o.annotations.Some? then o.annotations.value else map[]
  }
}
