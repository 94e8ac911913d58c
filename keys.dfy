/** The reserved name shared by all three stages (`PROP_NAME`, index.js:5): the `hProperties`
    key on Markdown nodes, the property name on HTML elements, and the entry name in the
    generated props literal. */
module Keys {

  const AnnotationKey: string := "annotation"
}
