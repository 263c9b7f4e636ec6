/** The per-dataset `dcc.Store` contents the callbacks pass around: the
    file's name, its table, and the metadata read from its preamble. */
module Stores {

  import opened Wrappers
  import opened Frames
  import opened Dicts

  /** `{'filename': ..., 'data': df.to_json(...), 'metadata': {...}}`. `data`
      is None when the store holds no table text. The root progress
      dashboard keeps no metadata: its stores carry an empty dict. */
  datatype Store = Store(filename: string, data: Option<Frame>, metadata: Dict)

  /** Tables held in a store are rectangular. */
  predicate WellFormed(s: Store) {
    s.data.Some? ==> Rectangular(s.data.value)
  }
}
