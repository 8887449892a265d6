/**
 * The bundled sample posts the front end seeds its storage with. Titles,
 * excerpts, authors, dates, covers, tags and read times are the bundled
 * ones; each Markdown body is represented by its opening heading.
 */
module SampleData {
  import opened BlogTypes

  const BlogPosts: seq<BlogPost> := [
    BlogPost("1", "探索 React 18 的并发特性",
      "深入了解 React 18 带来的并发渲染、自动批处理和 Suspense 改进，让你的应用更加流畅。",
      "## React 18 的革命性更新", "张三", "2026-01-08",
      "https://images.unsplash.com/photo-1633356122544-f134324a6cee?w=800&h=400&fit=crop",
      ["React", "JavaScript", "前端开发"], 8),
    BlogPost("2", "TypeScript 高级类型技巧",
      "掌握条件类型、映射类型和模板字面量类型，写出更强大的类型定义。",
      "## TypeScript 类型体操", "李四", "2026-01-06",
      "https://images.unsplash.com/photo-1516116216624-53e697fedbea?w=800&h=400&fit=crop",
      ["TypeScript", "类型系统", "前端开发"], 10),
    BlogPost("3", "现代 CSS 布局技巧",
      "从 Flexbox 到 Grid，再到 Container Queries，掌握现代 CSS 布局的精髓。",
      "## CSS 布局的现代艺术", "王五", "2026-01-04",
      "https://images.unsplash.com/photo-1507003211169-0a1dd7228f2d?w=800&h=400&fit=crop",
      ["CSS", "布局", "Web 设计"], 6),
    BlogPost("4", "构建高性能 Web 应用",
      "从代码分割到缓存策略，全面提升你的 Web 应用性能。",
      "## Web 性能优化指南", "赵六", "2026-01-02",
      "https://images.unsplash.com/photo-1460925895917-afdab827c52f?w=800&h=400&fit=crop",
      ["性能优化", "Web 开发", "最佳实践"], 12)
  ]
}
