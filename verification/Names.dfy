/** The names of cache entries: strings, which the code compares by content (cmp_string of src/xtypes/xhash.c). */
module Names {
  datatype Name = Name(text: string)
}
