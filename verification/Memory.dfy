/** The memory of the objects in an array that C++ code constructs and destroys in place. */
module Memory {
  /**
   * Memory for one object: none lives there, the default-constructed object of
   * the array that it is part of does, or an object constructed with a value.
   */
  datatype Storage<+T> = Gone | Default | Live(value: T)
}
