/** The candidate post the script fills into the blog's form. Templates read from
    `content_templates.json` have the same four fields. */
module Posts {

  datatype Post = Post(title: string, excerpt: string, content: string, tags: string)
}
