/** The label types of src/data/dataset.h used by the classifiers. */
module Data {
  /** DataLabel: a class name. */
  type Label = string

  /** DataEntry: the label of an observation and the name of its file. */
  datatype Entry = Entry(lbl: Label, name: string)
}
