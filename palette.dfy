/**
  The ten route colours (`wayColors`) that both `scheme/scheme.go` and
  `helpers/helpers.go` declare, with the same values in the same order.
*/
module Palette {

  const WayColors: seq<string> :=
    ["#49b45d", "#3473ba", "#f67536", "#0ebdf5", "#ffb81b",
     "#815aa1", "#d6473d", "#704233", "#909093", "#68a0bd"]
}
